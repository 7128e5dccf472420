/** Polls, their lifecycle and their voting window. */
module Domain {
  import opened Aggregates

  /** Nanoseconds since Go's zero time, so that 0 is the time value for which IsZero holds. */
  type Time = int

  const ZERO_TIME: Time := 0
  const SECOND: int := 1_000_000_000

  datatype Status = Draft | Scheduled | Open | Closed | Archived

  datatype Window = Window(status: Status, opensAt: Time, closesAt: Time)

  predicate Contains(w: Window, t: Time) {
    w.closesAt != ZERO_TIME && w.opensAt <= t < w.closesAt
  }

  predicate IsOpenAt(w: Window, t: Time) {
    w.status == Open && Contains(w, t)
  }

  predicate ShouldOpenAt(w: Window, t: Time) {
    w.status == Scheduled && w.opensAt != ZERO_TIME && w.opensAt <= t
  }

  /** The transition table as a map with one entry per state that can be left. */
  function Successor(s: Status): Status
    requires s != Archived
  {
    match s
    case Draft => Scheduled
    case Scheduled => Open
    case Open => Closed
    case Closed => Archived
  }

  predicate CanTransitionTo(s: Status, next: Status) {
    s != Archived && Successor(s) == next
  }

  function Rank(s: Status): nat {
    match s
    case Draft => 0
    case Scheduled => 1
    case Open => 2
    case Closed => 3
    case Archived => 4
  }

  /** Whatever the table allows is one step up the ranking, so no status is ever revisited. */
  lemma TransitionsClimb(s: Status, next: Status)
    ensures CanTransitionTo(s, next) <==> Rank(next) == Rank(s) + 1
  {
  }

  // ---- Choices ----

  predicate Distinct(choices: seq<uint8>) {
    forall i, j :: 0 <= i < j < |choices| ==> choices[i] != choices[j]
  }

  function OptionsOf(choices: seq<uint8>): set<uint8> {
    set i | i in choices
  }
}
