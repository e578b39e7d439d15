/** The three Pomodoro session kinds and the fixed profile table that gives each
    its duration, display title and colour tag. */
module Sessions {
  import opened Wrappers

  datatype SessionKind = Study | ShortBreak | LongBreak

  /** One row of the settings table. */
  datatype Profile = Profile(duration: int, title: string, color: string)

  /** The settings table, indexed by kind. */
  function ProfileOf(k: SessionKind): (p: Profile)
    ensures p.duration > 0
    ensures p.duration % 60 == 0
    ensures k == Study ==> p.duration == 1500
    ensures k == ShortBreak ==> p.duration == 300
    ensures k == LongBreak ==> p.duration == 900
  {
    match k
    case Study => Profile(25 * 60, "Study Time", "bg-blue-500")
    case ShortBreak => Profile(5 * 60, "Short Break", "bg-green-500")
    case LongBreak => Profile(15 * 60, "Long Break", "bg-purple-500")
  }

  function Duration(k: SessionKind): int {
    ProfileOf(k).duration
  }

  /** The property name under which a kind's row is stored in the table. */
  function Key(k: SessionKind): string {
    match k
    case Study => "study"
    case ShortBreak => "shortBreak"
    case LongBreak => "longBreak"
  }

  /** Looking a row up by its property name: exactly the three table keys find a
      row. Names of inherited object members are not modelled. */
  function KindOfKey(name: string): (r: Option<SessionKind>)
    ensures r.Some? <==> name in {"study", "shortBreak", "longBreak"}
    ensures r.Some? ==> Key(r.value) == name
  {
    if name == "study" then Some(Study)
    else if name == "shortBreak" then Some(ShortBreak)
    else if name == "longBreak" then Some(LongBreak)
    else None
  }

  /** The key of a kind leads back to that kind, and distinct kinds have distinct keys. */
  lemma KeyRoundTrip(k: SessionKind)
    ensures KindOfKey(Key(k)) == Some(k)
  {
  }
}
