/** The activity registry: activity records keyed by name, and what a signup does to them. */
module Activities {

  /** One extracurricular activity. The participant list keeps signup order. */
  datatype Activity = Activity(
    description: string,
    schedule: string,
    maxParticipants: int,
    participants: seq<string>)

  /** The registry: activity name to activity record. */
  type Registry = map<string, Activity>

  /** The registry as it stands when the process starts. */
  function SeedActivities(): Registry {
    map[
      "Chess Club" := Activity(
        "Learn strategies and compete in chess tournaments",
        "Fridays, 3:30 PM - 5:00 PM",
        12,
        ["michael@mergington.edu", "daniel@mergington.edu"]),
      "Programming Class" := Activity(
        "Learn programming fundamentals and build software projects",
        "Tuesdays and Thursdays, 3:30 PM - 4:30 PM",
        20,
        ["emma@mergington.edu", "sophia@mergington.edu"]),
      "Gym Class" := Activity(
        "Physical education and sports activities",
        "Mondays, Wednesdays, Fridays, 2:00 PM - 3:00 PM",
        30,
        ["john@mergington.edu", "olivia@mergington.edu"])
    ]
  }

  /** The detail of the error raised for an unknown activity name. */
  const ActivityNotFound: string := "Activity not found"

  /** The confirmation returned by a successful signup. */
  function SignupMessage(email: string, name: string): string {
    "Signed up " + email + " for " + name
  }

  /**
   * The registry after `email` is appended to the participants of `name`.
   * Neither duplicates nor capacity are checked: the email is always appended.
   */
  function Enroll(reg: Registry, name: string, email: string): (r: Registry)
    requires name in reg
    ensures r.Keys == reg.Keys
    ensures forall n :: n in reg && n != name ==> r[n] == reg[n]
    ensures r[name].description == reg[name].description
    ensures r[name].schedule == reg[name].schedule
    ensures r[name].maxParticipants == reg[name].maxParticipants
    ensures |r[name].participants| == |reg[name].participants| + 1
    ensures r[name].participants[..|reg[name].participants|] == reg[name].participants
    ensures r[name].participants[|reg[name].participants|] == email
    ensures multiset(r[name].participants) == multiset(reg[name].participants) + multiset{email}
  {
    var a := reg[name];
    reg[name := a.(participants := a.participants + [email])]
  }

  /** The registry after the signups of `emails` for `name`, one request after another, in order. */
  function EnrollAll(reg: Registry, name: string, emails: seq<string>): (r: Registry)
    requires name in reg
    ensures name in r
    decreases |emails|
  {
    if emails == [] then reg
    else Enroll(EnrollAll(reg, name, emails[..|emails| - 1]), name, emails[|emails| - 1])
  }

  /**
   * Successive signups for one activity leave its participants as the old list followed by
   * the new emails in request order, and change nothing else in the registry.
   */
  lemma {:induction false} EnrollAllAppendsInOrder(reg: Registry, name: string, emails: seq<string>)
    requires name in reg
    ensures EnrollAll(reg, name, emails).Keys == reg.Keys
    ensures forall n :: n in reg && n != name ==> EnrollAll(reg, name, emails)[n] == reg[n]
    ensures EnrollAll(reg, name, emails)[name] == reg[name].(participants := reg[name].participants + emails)
    decreases |emails|
  {
    if emails != [] {
      var init := emails[..|emails| - 1];
      EnrollAllAppendsInOrder(reg, name, init);
      assert emails == init + [emails[|emails| - 1]];
    }
  }

  /**
   * A signup by someone already on the list is admitted once more: afterwards the email
   * occurs one time more than before.
   */
  lemma EnrollAdmitsDuplicates(reg: Registry, name: string, email: string)
    requires name in reg && email in reg[name].participants
    ensures multiset(Enroll(reg, name, email)[name].participants)[email] >= 2
  {
  }

  /** Signups for two different activities commute. */
  lemma EnrollCommutes(reg: Registry, a: string, x: string, b: string, y: string)
    requires a in reg && b in reg && a != b
    ensures Enroll(Enroll(reg, a, x), b, y) == Enroll(Enroll(reg, b, y), a, x)
  {
  }
}
