/**
 * The sample activities the application loads into an empty collection at
 * start-up: one function per entry of `sample_activities`, and the entries'
 * values in the dictionary's order.
 */
module Seed {
  import opened Roster

  /** A student's address at the school's mail domain. */
  function Email(user: string): string
  {
    user + "@mergington.edu"
  }

  /** Distinct students have distinct addresses. */
  lemma {:induction false} EmailInjective(a: string, b: string)
    ensures Email(a) == Email(b) ==> a == b
  {
    if Email(a) == Email(b) {
      assert |a| == |b|;
      assert a == Email(a)[..|a|];
      assert b == Email(b)[..|b|];
    }
  }

  /** A meeting time as the sample data writes it: days, then the span of hours. */
  function Schedule(days: string, start: string, end: string): string
  {
    days + ", " + start + " - " + end
  }

  /** A seed record: two distinct participants and room for at least ten. */
  ghost predicate SeedShaped(a: Activity)
  {
    RosterSound(a) && |a.participants| == 2 && a.maxParticipants >= 10
  }

  // Each description is written as two literals joined with `+`; the string
  // is the same, and shorter literals are cheaper for the verifier.
  function ChessClub(): Activity
  {
    Activity("Chess Club",
      "Learn strategies " + "and compete in chess tournaments",
      Schedule("Fridays", "3:30 PM", "5:00 PM"),
      12, [Email("michael"), Email("daniel")])
  }

  lemma {:induction false} ChessClubShaped()
    ensures SeedShaped(ChessClub())
  {
  }

  function ProgrammingClass(): Activity
  {
    Activity("Programming Class",
      "Learn programming fundamentals " + "and build software projects",
      Schedule("Tuesdays and Thursdays", "3:30 PM", "4:30 PM"),
      20, [Email("emma"), Email("sophia")])
  }

  lemma {:induction false} ProgrammingClassShaped()
    ensures SeedShaped(ProgrammingClass())
  {
  }

  function GymClass(): Activity
  {
    Activity("Gym Class",
      "Physical education " + "and sports activities",
      Schedule("Mondays, Wednesdays, Fridays", "2:00 PM", "3:00 PM"),
      30, [Email("john"), Email("olivia")])
  }

  lemma {:induction false} GymClassShaped()
    ensures SeedShaped(GymClass())
  {
  }

  function SoccerTeam(): Activity
  {
    Activity("Soccer Team",
      "Join the school soccer team " + "and compete in local leagues",
      Schedule("Tuesdays and Thursdays", "4:00 PM", "5:30 PM"),
      18, [Email("lucas"), Email("mia")])
  }

  lemma {:induction false} SoccerTeamShaped()
    ensures SeedShaped(SoccerTeam())
  {
  }

  function BasketballClub(): Activity
  {
    Activity("Basketball Club",
      "Practice basketball skills " + "and play friendly matches",
      Schedule("Wednesdays", "3:30 PM", "5:00 PM"),
      15, [Email("liam"), Email("ava")])
  }

  lemma {:induction false} BasketballClubShaped()
    ensures SeedShaped(BasketballClub())
  {
  }

  function ArtClub(): Activity
  {
    Activity("Art Club",
      "Explore painting, drawing, " + "and other visual arts",
      Schedule("Mondays", "3:30 PM", "5:00 PM"),
      16, [Email("ella"), Email("noah")])
  }

  lemma {:induction false} ArtClubShaped()
    ensures SeedShaped(ArtClub())
  {
    EmailInjective("ella", "noah");
  }

  function DramaSociety(): Activity
  {
    Activity("Drama Society",
      "Participate in theater productions " + "and acting workshops",
      Schedule("Fridays", "4:00 PM", "5:30 PM"),
      20, [Email("amelia"), Email("jack")])
  }

  lemma {:induction false} DramaSocietyShaped()
    ensures SeedShaped(DramaSociety())
  {
  }

  function MathOlympiad(): Activity
  {
    Activity("Math Olympiad",
      "Prepare for math competitions " + "and solve challenging problems",
      Schedule("Thursdays", "3:30 PM", "5:00 PM"),
      10, [Email("ethan"), Email("grace")])
  }

  lemma {:induction false} MathOlympiadShaped()
    ensures SeedShaped(MathOlympiad())
  {
    EmailInjective("ethan", "grace");
  }

  function ScienceClub(): Activity
  {
    Activity("Science Club",
      "Conduct experiments " + "and explore scientific concepts",
      Schedule("Wednesdays", "4:00 PM", "5:00 PM"),
      14, [Email("chloe"), Email("benjamin")])
  }

  lemma {:induction false} ScienceClubShaped()
    ensures SeedShaped(ScienceClub())
  {
  }

  /** `sample_activities.values()`, in the dictionary's order. */
  function SampleValues(): seq<Activity>
  {
    [ChessClub(), ProgrammingClass(), GymClass(), SoccerTeam(), BasketballClub(), ArtClub(), DramaSociety(), MathOlympiad(), ScienceClub()]
  }

  /** Every sample record has the shape of seed data. */
  lemma {:induction false} SampleValuesShaped()
    ensures |SampleValues()| == 9
    ensures forall d | d in SampleValues() :: SeedShaped(d)
  {
    ChessClubShaped();
    ProgrammingClassShaped();
    GymClassShaped();
    SoccerTeamShaped();
    BasketballClubShaped();
    ArtClubShaped();
    DramaSocietyShaped();
    MathOlympiadShaped();
    ScienceClubShaped();
  }

  /** The dictionary's keys are the records' names, so no two sample records share a name. */
  lemma {:induction false} SampleNamesDistinct()
    ensures DistinctNames(SampleValues())
  {
  }
}
