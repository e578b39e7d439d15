/** The statistics panel and the rhythm of breaks over many study sessions. */
module Stats {
  import opened Sessions
  import opened Timer

  /** Minutes credited per completed study session on the statistics panel. */
  const MinutesPerSession: nat := 25

  /** The credited minutes per session are exactly the study session's length. */
  lemma MinutesPerSessionIsStudyLength()
    ensures MinutesPerSession * 60 == Duration(Study)
  {
  }

  /** "Total Study Time" for `completed` sessions, as whole hours and leftover minutes. */
  function TotalStudyTime(completed: nat): (hm: (nat, nat))
    ensures hm.1 < 60
    ensures hm.0 * 60 + hm.1 == MinutesPerSession * completed
  {
    (completed * MinutesPerSession / 60, completed * MinutesPerSession % 60)
  }

  /** Hours and minutes are the only split of the total with minutes below sixty. */
  lemma TotalStudyTimeUnique(completed: nat, h: nat, m: nat)
    requires m < 60 && h * 60 + m == MinutesPerSession * completed
    ensures TotalStudyTime(completed) == (h, m)
  {
  }

  /** One more completed session adds 25 minutes to the display, carrying into
      the hours when the minutes pass sixty. */
  lemma TotalStudyTimeStep(completed: nat)
    ensures var (h, m) := TotalStudyTime(completed);
      TotalStudyTime(completed + 1) ==
        if m + MinutesPerSession < 60 then (h, m + MinutesPerSession)
        else (h + 1, m + MinutesPerSession - 60)
  {
    var (h, m) := TotalStudyTime(completed);
    if m + MinutesPerSession < 60 {
      TotalStudyTimeUnique(completed + 1, h, m + MinutesPerSession);
    } else {
      TotalStudyTimeUnique(completed + 1, h + 1, m + MinutesPerSession - 60);
    }
  }

  /** The number of long breaks earned by the study completions numbered
      `1 .. n`. */
  function LongBreaksEarned(n: nat): nat
    decreases n
  {
    if n == 0 then 0
    else LongBreaksEarned(n - 1) + (if NextSession(Study, n) == LongBreak then 1 else 0)
  }

  /** After `n` study completions, exactly `n / 4` of them were followed by a
      long break: one in every four. */
  lemma {:induction false} LongBreakEveryFourth(n: nat)
    ensures LongBreaksEarned(n) == n / 4
    decreases n
  {
    if n > 0 {
      LongBreakEveryFourth(n - 1);
      if n % 4 == 0 {
        assert n / 4 == (n - 1) / 4 + 1;
      } else {
        assert n / 4 == (n - 1) / 4;
      }
    }
  }

  /** A completed study session is worth exactly 25 minutes on the panel. */
  lemma StudyCompletionAddsMinutes(s: TimerState)
    requires s.session == Study
    ensures var (h, m) := TotalStudyTime(s.completed);
      var (h', m') := TotalStudyTime(Complete(s).completed);
      h' * 60 + m' == h * 60 + m + MinutesPerSession
  {
  }
}
