/**
 * The application's handlers over the shared `activities` collection. The
 * collection is the one piece of state; each handler reads it once and
 * changes at most the roster of the named activity.
 */
module App {
  import opened Roster
  import Seed

  class ActivityStore {
    /** The values of `sample_activities`, fixed when the application starts. */
    const sample: seq<Activity>

    /** The `activities` collection, one document per activity name. */
    var activities: Table

    /**
     * Documents are found by `name`, so each one is filed under its own name;
     * the sample records have distinct names and the shape of seed data.
     */
    ghost predicate Valid()
      reads this
    {
      && KeyedByName(activities)
      && DistinctNames(sample)
      && forall d | d in sample :: Seed.SeedShaped(d)
    }

    /** Opens the collection with whatever documents it already holds. */
    constructor (persisted: Table)
      requires KeyedByName(persisted)
      ensures Valid() && activities == persisted && sample == Seed.SampleValues()
    {
      sample := Seed.SampleValues();
      activities := persisted;
      Seed.SampleValuesShaped();
      Seed.SampleNamesDistinct();
    }

    /** Start-up: an empty collection receives the sample activities; a non-empty one is left alone. */
    method SeedIfEmpty()
      requires Valid()
      modifies this
      ensures Valid()
      ensures |old(activities)| == 0 ==>
                && activities == InsertMany(map[], sample)
                && activities.Keys == (set d | d in sample :: d.name)
                && (forall d | d in sample :: activities[d.name] == d)
                && TableSound(activities)
      ensures |old(activities)| != 0 ==> activities == old(activities)
    {
      if |activities| == 0 {
        assert activities == map[];
        activities := InsertMany(activities, sample);
        InsertManyFilesEach(map[], sample);
        forall d | d in sample
          ensures activities[d.name] == d
        {
          var i :| 0 <= i < |sample| && sample[i] == d;
        }
      }
    }

    /** GET /activities: every document, keyed by its own `name` field. */
    function GetActivities(): (view: map<string, Activity>)
      reads this
      requires Valid()
      ensures view.Keys == activities.Keys
      ensures forall k | k in view :: view[k].name == k && view[k] == activities[k]
    {
      assert forall a, b | a in activities.Values && b in activities.Values && a.name == b.name :: a == b by {
        forall a, b | a in activities.Values && b in activities.Values && a.name == b.name
          ensures a == b
        {
          var ka :| ka in activities && activities[ka] == a;
          var kb :| kb in activities && activities[kb] == b;
        }
      }
      var view := map a | a in activities.Values :: a.name := a;
      assert forall k | k in activities :: activities[k] in activities.Values;
      view
    }

    /** POST /activities/{name}/signup?email=... */
    method SignupForActivity(name: string, email: string) returns (r: Response)
      requires Valid()
      modifies this
      ensures Valid()
      ensures r == SignupStep(old(activities), name, email).response
      ensures activities == SignupStep(old(activities), name, email).table
      ensures !r.Ok? ==> activities == old(activities)
      ensures old(TableSound(activities)) ==> TableSound(activities)
    {
      if name !in activities {
        return NotFound(ActivityNotFound(name));
      }
      var activity := activities[name];
      if email in activity.participants {
        return BadRequest(AlreadySignedUp(email, name));
      }
      if |activity.participants| >= activity.maxParticipants {
        return BadRequest(ActivityFull(name, activity.maxParticipants));
      }
      // `$push`: append to the end of the stored array.
      activities := activities[name := activity.(participants := activity.participants + [email])];
      r := Ok(SignedUp(email, name));
    }

    /** DELETE /activities/{name}/unregister?email=... */
    method UnregisterFromActivity(name: string, email: string) returns (r: Response)
      requires Valid()
      modifies this
      ensures Valid()
      ensures r == UnregisterStep(old(activities), name, email).response
      ensures activities == UnregisterStep(old(activities), name, email).table
      ensures !r.Ok? ==> activities == old(activities)
      ensures old(TableSound(activities)) ==> TableSound(activities)
    {
      if name !in activities {
        return NotFound(ActivityNotFound(name));
      }
      var activity := activities[name];
      if email !in activity.participants {
        return NotFound(NotRegistered(email, name));
      }
      // `$pull`: remove every occurrence from the stored array.
      activities := activities[name := activity.(participants := Pull(activity.participants, email))];
      r := Ok(Removed(email, name));
    }
  }
}
