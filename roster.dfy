/**
 * The activity records of the Mergington High School roster manager, the
 * checks the handlers make on them, the `$pull` update, and the effect of
 * each handler on the whole collection, stated as pure functions of the
 * collection before the request.
 */
module Roster {

  /** One document of the `activities` collection. */
  datatype Activity = Activity(
    name: string,
    description: string,
    schedule: string,
    maxParticipants: int,
    participants: seq<string>)

  /** The collection, indexed by the `name` the handlers look documents up by. */
  type Table = map<string, Activity>

  /** What a handler answers: a success message, or an HTTP error with its detail text. */
  datatype Response = Ok(message: string) | NotFound(detail: string) | BadRequest(detail: string)
  {
    /** The HTTP status code the response is sent with. */
    function Status(): (code: int)
      ensures code == 200 <==> Ok?
      ensures code == 404 <==> NotFound?
      ensures code == 400 <==> BadRequest?
    {
      match this
      case Ok(_) => 200
      case NotFound(_) => 404
      case BadRequest(_) => 400
    }
  }

  /** A handler's answer together with the collection it leaves behind. */
  datatype Outcome = Outcome(response: Response, table: Table)

  // ---------------------------------------------------------------------------
  // Invariants of a roster and of the collection

  predicate NoDuplicates(s: seq<string>)
  {
    forall i, j | 0 <= i < j < |s| :: s[i] != s[j]
  }

  /** The test the signup handler uses to refuse a new participant. */
  predicate IsFull(a: Activity)
  {
    |a.participants| >= a.maxParticipants
  }

  /** The two invariants every roster is meant to keep. */
  predicate RosterSound(a: Activity)
  {
    NoDuplicates(a.participants) && |a.participants| <= a.maxParticipants
  }

  predicate TableSound(t: Table)
  {
    forall k | k in t :: RosterSound(t[k])
  }

  /** Every document is stored under its own `name`. */
  predicate KeyedByName(t: Table)
  {
    forall k | k in t :: t[k].name == k
  }

  /** The store's `insert_many`: each document is filed under its own name, in order. */
  function InsertMany(t: Table, docs: seq<Activity>): (r: Table)
    ensures r.Keys == t.Keys + set d | d in docs :: d.name
    ensures forall k | k in r :: r[k] in docs || (k in t && r[k] == t[k])
    ensures KeyedByName(t) ==> KeyedByName(r)
    ensures TableSound(t) && (forall d | d in docs :: RosterSound(d)) ==> TableSound(r)
    decreases |docs|
  {
    if docs == [] then t
    else
      assert docs == [docs[0]] + docs[1..];
      InsertMany(t[docs[0].name := docs[0]], docs[1..])
  }

  /** No two of the documents carry the same name. */
  predicate DistinctNames(docs: seq<Activity>)
  {
    forall i, j | 0 <= i < j < |docs| :: docs[i].name != docs[j].name
  }

  /** A document already stored whose name none of the new ones carries is left as it was. */
  lemma {:induction false} InsertManyKeepsOthers(t: Table, docs: seq<Activity>, k: string)
    requires k in t
    requires forall d | d in docs :: d.name != k
    ensures k in InsertMany(t, docs) && InsertMany(t, docs)[k] == t[k]
    decreases |docs|
  {
    if docs != [] {
      assert docs == [docs[0]] + docs[1..];
      InsertManyKeepsOthers(t[docs[0].name := docs[0]], docs[1..], k);
    }
  }

  /** When the names are distinct, every document ends up filed under its own name. */
  lemma {:induction false} InsertManyFilesEach(t: Table, docs: seq<Activity>)
    requires DistinctNames(docs)
    ensures forall i | 0 <= i < |docs| :: docs[i].name in InsertMany(t, docs) && InsertMany(t, docs)[docs[i].name] == docs[i]
    decreases |docs|
  {
    if docs != [] {
      var first, rest := docs[0], docs[1..];
      var t' := t[first.name := first];
      assert DistinctNames(rest) by {
        forall i, j | 0 <= i < j < |rest|
          ensures rest[i].name != rest[j].name
        {
          assert rest[i] == docs[i + 1] && rest[j] == docs[j + 1];
        }
      }
      assert forall d | d in rest :: d.name != first.name by {
        forall d | d in rest
          ensures d.name != first.name
        {
          var j :| 0 <= j < |rest| && rest[j] == d;
          assert docs[j + 1] == d;
        }
      }
      InsertManyFilesEach(t', rest);
      InsertManyKeepsOthers(t', rest, first.name);
      forall i | 0 <= i < |docs|
        ensures docs[i].name in InsertMany(t, docs) && InsertMany(t, docs)[docs[i].name] == docs[i]
      {
        if i > 0 {
          assert docs[i] == rest[i - 1];
        }
      }
    }
  }

  // ---------------------------------------------------------------------------
  // Messages, as the handlers format them

  function DigitChar(d: nat): (c: char)
    requires d < 10
    ensures '0' <= c <= '9'
  {
    ('0' as int + d) as char
  }

  function DecimalDigits(n: nat): (r: string)
    ensures |r| > 0
    ensures forall i | 0 <= i < |r| :: '0' <= r[i] <= '9'
  {
    if n < 10 then [DigitChar(n)] else DecimalDigits(n / 10) + [DigitChar(n % 10)]
  }

  /** The number a string of decimal digits denotes, most significant digit first. */
  function DecimalValue(s: string): nat
    requires forall i | 0 <= i < |s| :: '0' <= s[i] <= '9'
  {
    if s == [] then 0 else DecimalValue(s[..|s| - 1]) * 10 + (s[|s| - 1] as int - '0' as int)
  }

  /** The digits of `n` read back as a decimal number give `n` again. */
  lemma {:induction false} DecimalDigitsValue(n: nat)
    ensures DecimalValue(DecimalDigits(n)) == n
    decreases n
  {
    if n >= 10 {
      var s := DecimalDigits(n);
      assert s[..|s| - 1] == DecimalDigits(n / 10);
      DecimalDigitsValue(n / 10);
    }
  }

  /** An integer in decimal, as an f-string renders it. */
  function IntText(n: int): string
  {
    if n < 0 then "-" + DecimalDigits(-n) else DecimalDigits(n)
  }

  function ActivityNotFound(name: string): string
  {
    "Activity '" + name + "' not found"
  }

  function AlreadySignedUp(email: string, name: string): string
  {
    "Student " + email + " is already signed up for " + name
  }

  function ActivityFull(name: string, max: int): string
  {
    name + " is full (" + IntText(max) + " participants maximum)"
  }

  function NotRegistered(email: string, name: string): string
  {
    "Student " + email + " is not registered for " + name
  }

  function SignedUp(email: string, name: string): string
  {
    "Successfully signed up " + email + " for " + name
  }

  function Removed(email: string, name: string): string
  {
    "Successfully removed " + email + " from " + name
  }

  // ---------------------------------------------------------------------------
  // The `$pull` update: remove every occurrence of a value from an array

  /** `r` is `s` with some of its elements left out, the rest in their order. */
  ghost predicate IsSubsequence(r: seq<string>, s: seq<string>)
  {
    if r == [] then true
    else if s == [] then false
    else if r[0] == s[0] then IsSubsequence(r[1..], s[1..])
    else IsSubsequence(r, s[1..])
  }

  function Pull(s: seq<string>, x: string): (r: seq<string>)
    ensures x !in r
    ensures |r| <= |s|
  {
    if s == [] then []
    else
      assert s == [s[0]] + s[1..];
      if s[0] == x then Pull(s[1..], x) else [s[0]] + Pull(s[1..], x)
  }

  /** `$pull` drops every copy of the value and keeps every copy of anything else. */
  lemma {:induction false} PullCounts(s: seq<string>, x: string)
    ensures multiset(Pull(s, x)) == multiset(s)[x := 0]
    ensures |Pull(s, x)| == |s| - multiset(s)[x]
  {
    if s != [] {
      assert s == [s[0]] + s[1..];
      PullCounts(s[1..], x);
    }
  }

  /** `$pull` keeps the other entries in their relative order. */
  lemma {:induction false} PullKeepsOrder(s: seq<string>, x: string)
    ensures IsSubsequence(Pull(s, x), s)
  {
    if s != [] {
      PullKeepsOrder(s[1..], x);
      var r := Pull(s, x);
      if s[0] != x {
        assert r[1..] == Pull(s[1..], x);
      }
    }
  }

  /** `$pull` of a value the array does not hold changes nothing. */
  lemma {:induction false} PullAbsent(s: seq<string>, x: string)
    requires x !in s
    ensures Pull(s, x) == s
  {
    if s != [] {
      assert s == [s[0]] + s[1..];
      PullAbsent(s[1..], x);
    }
  }

  lemma {:induction false} NoDuplicatesTail(s: seq<string>)
    requires NoDuplicates(s) && s != []
    ensures NoDuplicates(s[1..]) && s[0] !in s[1..]
  {
    var tail := s[1..];
    forall i, j | 0 <= i < j < |tail| ensures tail[i] != tail[j] {
      assert tail[i] == s[i + 1] && tail[j] == s[j + 1];
    }
    forall j | 0 <= j < |tail| ensures tail[j] != s[0] { assert tail[j] == s[j + 1]; }
  }

  lemma {:induction false} NoDuplicatesCons(h: string, p: seq<string>)
    requires NoDuplicates(p) && h !in p
    ensures NoDuplicates([h] + p)
  {
    var r := [h] + p;
    forall i, j | 0 <= i < j < |r| ensures r[i] != r[j] {
      assert r[j] == p[j - 1];
      if i > 0 { assert r[i] == p[i - 1]; }
    }
  }

  /** `$pull` keeps a roster free of duplicates. */
  lemma {:induction false} PullKeepsNoDuplicates(s: seq<string>, x: string)
    requires NoDuplicates(s)
    ensures NoDuplicates(Pull(s, x))
  {
    if s != [] {
      NoDuplicatesTail(s);
      PullKeepsNoDuplicates(s[1..], x);
      if s[0] != x {
        PullCounts(s[1..], x);
        assert s[0] !in Pull(s[1..], x) by {
          assert multiset(Pull(s[1..], x))[s[0]] == 0;
        }
        NoDuplicatesCons(s[0], Pull(s[1..], x));
      }
    }
  }

  // ---------------------------------------------------------------------------
  // The handlers, as functions of the collection

  /** POST /activities/{name}/signup?email=... */
  function SignupStep(t: Table, name: string, email: string): (o: Outcome)
    ensures name !in t ==> o == Outcome(NotFound(ActivityNotFound(name)), t)
    ensures name in t && email in t[name].participants ==>
              o == Outcome(BadRequest(AlreadySignedUp(email, name)), t)
    ensures name in t && email !in t[name].participants && IsFull(t[name]) ==>
              o == Outcome(BadRequest(ActivityFull(name, t[name].maxParticipants)), t)
    ensures o.response.Ok? <==> name in t && email !in t[name].participants && !IsFull(t[name])
    ensures o.response.Ok? ==>
              && o.response.message == SignedUp(email, name)
              && o.table.Keys == t.Keys
              && o.table[name] == t[name].(participants := t[name].participants + [email])
              && forall k | k in t && k != name :: o.table[k] == t[k]
    ensures KeyedByName(t) ==> KeyedByName(o.table)
    ensures TableSound(t) ==> TableSound(o.table)
  {
    if name !in t then Outcome(NotFound(ActivityNotFound(name)), t)
    else
      var a := t[name];
      if email in a.participants then Outcome(BadRequest(AlreadySignedUp(email, name)), t)
      else if |a.participants| >= a.maxParticipants then
        Outcome(BadRequest(ActivityFull(name, a.maxParticipants)), t)
      else
        var p := a.participants + [email];
        assert NoDuplicates(a.participants) ==> NoDuplicates(p) by {
          if NoDuplicates(a.participants) {
            forall i, j | 0 <= i < j < |p| ensures p[i] != p[j] {
              if j == |a.participants| {
                assert p[i] == a.participants[i];
              }
            }
          }
        }
        Outcome(Ok(SignedUp(email, name)), t[name := a.(participants := p)])
  }

  /** DELETE /activities/{name}/unregister?email=... */
  function UnregisterStep(t: Table, name: string, email: string): (o: Outcome)
    ensures name !in t ==> o == Outcome(NotFound(ActivityNotFound(name)), t)
    ensures name in t && email !in t[name].participants ==>
              o == Outcome(NotFound(NotRegistered(email, name)), t)
    ensures o.response.Ok? <==> name in t && email in t[name].participants
    ensures !o.response.BadRequest?
    ensures o.response.Ok? ==>
              && o.response.message == Removed(email, name)
              && o.table.Keys == t.Keys
              && o.table[name] == t[name].(participants := Pull(t[name].participants, email))
              && email !in o.table[name].participants
              && forall k | k in t && k != name :: o.table[k] == t[k]
    ensures KeyedByName(t) ==> KeyedByName(o.table)
    ensures TableSound(t) ==> TableSound(o.table)
  {
    if name !in t then Outcome(NotFound(ActivityNotFound(name)), t)
    else
      var a := t[name];
      if email !in a.participants then Outcome(NotFound(NotRegistered(email, name)), t)
      else
        var p := Pull(a.participants, email);
        assert NoDuplicates(a.participants) ==> NoDuplicates(p) by {
          if NoDuplicates(a.participants) { PullKeepsNoDuplicates(a.participants, email); }
        }
        Outcome(Ok(Removed(email, name)), t[name := a.(participants := p)])
  }

  // ---------------------------------------------------------------------------
  // Properties of `$pull`

  lemma {:induction false} PullConcat(a: seq<string>, b: seq<string>, x: string)
    ensures Pull(a + b, x) == Pull(a, x) + Pull(b, x)
  {
    if a != [] {
      assert (a + b)[0] == a[0];
      assert (a + b)[1..] == a[1..] + b;
      PullConcat(a[1..], b, x);
    } else {
      assert a + b == b;
    }
  }

  /** Pulling a value that was just pushed onto an array without it gives the array back. */
  lemma {:induction false} PullAfterPush(s: seq<string>, x: string)
    requires x !in s
    ensures Pull(s + [x], x) == s
  {
    PullConcat(s, [x], x);
    PullAbsent(s, x);
    assert Pull([x], x) == Pull([], x);
  }

  /** Where a value occurs once, `$pull` removes exactly that entry. */
  lemma {:induction false} PullSplit(a: seq<string>, b: seq<string>, x: string)
    requires x !in a && x !in b
    ensures Pull(a + [x] + b, x) == a + b
  {
    PullConcat(a + [x], b, x);
    PullConcat(a, [x], x);
    PullAbsent(a, x);
    PullAbsent(b, x);
    assert Pull([x], x) == Pull([], x);
  }

  /** In a roster without duplicates, an entry occurs neither before nor after its position. */
  lemma {:induction false} SplitAtEntry(s: seq<string>, i: nat)
    requires NoDuplicates(s) && i < |s|
    ensures s == s[..i] + [s[i]] + s[i + 1..]
    ensures s[i] !in s[..i] && s[i] !in s[i + 1..]
  {
    var a, b := s[..i], s[i + 1..];
    forall j | 0 <= j < |a| ensures a[j] != s[i] { assert a[j] == s[j]; }
    forall j | 0 <= j < |b| ensures b[j] != s[i] { assert b[j] == s[i + 1 + j]; }
    assert s == a + [s[i]] + b;
  }

  /** On a roster without duplicates, `$pull` removes exactly the one entry holding the value. */
  lemma {:induction false} PullRemovesOne(s: seq<string>, x: string, i: nat)
    requires NoDuplicates(s) && i < |s| && s[i] == x
    ensures Pull(s, x) == s[..i] + s[i + 1..]
  {
    SplitAtEntry(s, i);
    PullSplit(s[..i], s[i + 1..], x);
  }

  /** Pulling the one copy of a value and pushing it back rearranges the array. */
  lemma {:induction false} PullSplitThenPush(a: seq<string>, b: seq<string>, x: string)
    requires x !in a && x !in b
    ensures |Pull(a + [x] + b, x)| == |a + [x] + b| - 1
    ensures multiset(Pull(a + [x] + b, x) + [x]) == multiset(a + [x] + b)
  {
    PullSplit(a, b, x);
    calc {
      multiset(Pull(a + [x] + b, x) + [x]);
      multiset(a + b + [x]);
      multiset(a) + multiset(b) + multiset([x]);
      multiset(a + [x] + b);
    }
  }

  /** On a roster without duplicates, pulling an entry and pushing it again only moves it to the end. */
  lemma {:induction false} PullThenPushPermutes(s: seq<string>, x: string)
    requires NoDuplicates(s) && x in s
    ensures |Pull(s, x)| == |s| - 1
    ensures multiset(Pull(s, x) + [x]) == multiset(s)
  {
    var i :| 0 <= i < |s| && s[i] == x;
    SplitAtEntry(s, i);
    PullSplitThenPush(s[..i], s[i + 1..], x);
  }

  // ---------------------------------------------------------------------------
  // Properties that relate several requests

  /** A second identical signup after a successful one is refused as a duplicate. */
  lemma {:induction false} SignupTwiceRefused(t: Table, name: string, email: string)
    requires SignupStep(t, name, email).response.Ok?
    ensures var t' := SignupStep(t, name, email).table;
            SignupStep(t', name, email) == Outcome(BadRequest(AlreadySignedUp(email, name)), t')
  {
  }

  /** A second identical unregister after a successful one reports the student as not registered. */
  lemma {:induction false} UnregisterTwiceRefused(t: Table, name: string, email: string)
    requires UnregisterStep(t, name, email).response.Ok?
    ensures var t' := UnregisterStep(t, name, email).table;
            UnregisterStep(t', name, email) == Outcome(NotFound(NotRegistered(email, name)), t')
  {
  }

  /** Signing up a new student where there is room and then unregistering them restores the collection. */
  lemma {:induction false} SignupThenUnregister(t: Table, name: string, email: string)
    requires name in t && email !in t[name].participants && !IsFull(t[name])
    ensures var t' := SignupStep(t, name, email).table;
            UnregisterStep(t', name, email) == Outcome(Ok(Removed(email, name)), t)
  {
    var a := t[name];
    var t' := t[name := a.(participants := a.participants + [email])];
    assert SignupStep(t, name, email).table == t';
    PullAfterPush(a.participants, email);
    assert t'[name := a] == t;
  }

  /**
   * On a sound collection, unregistering an enrolled student and signing them up again
   * succeeds and leaves the roster a rearrangement of the original one, with the student last.
   */
  lemma {:induction false} UnregisterThenSignup(t: Table, name: string, email: string)
    requires TableSound(t) && name in t && email in t[name].participants
    ensures var t' := UnregisterStep(t, name, email).table;
            var o := SignupStep(t', name, email);
            && o.response == Ok(SignedUp(email, name))
            && o.table[name].participants == Pull(t[name].participants, email) + [email]
            && multiset(o.table[name].participants) == multiset(t[name].participants)
  {
    var a := t[name];
    assert RosterSound(a);
    PullThenPushPermutes(a.participants, email);
  }
}
