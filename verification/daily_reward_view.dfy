/** The daily-reward dialog: which calendar entry it offers for a given
    streak, the "day n of 7" label, and how each of the seven week cells is
    drawn. */
module DailyRewardView {
  import opened JsMath
  import opened Counting
  import opened LevelTable

  /** `Math.max(1, streak || 1)`: the streak, at least 1 (0 reads as 1). */
  function SafeStreak(streak: int): (r: int)
    ensures r >= 1
    ensures streak >= 1 ==> r == streak
    ensures streak < 1 ==> r == 1
  {
    Max(1, if streak == 0 then 1 else streak)
  }

  /** The calendar index offered, clamped to the table. */
  function RewardIndex(streak: int): (i: int)
    ensures 0 <= i < |DailyRewards()|
    ensures streak >= 1 ==> i == (streak - 1) % 7
    ensures streak < 1 ==> i == 0
  {
    Max(0, Min(Rem(SafeStreak(streak) - 1, 7), |DailyRewards()| - 1))
  }

  /** The reward offered today (the fallback to the first entry is never
      needed, since the index is always in range). */
  function TodayReward(streak: int): (e: DailyRewardEntry)
    ensures e in DailyRewards()
    ensures streak >= 1 ==> e.day == (streak - 1) % 7 + 1
    ensures streak < 1 ==> e == DailyRewards()[0]
  {
    DailyRewards()[RewardIndex(streak)]
  }

  /** The "day n of 7" label. */
  function DayLabel(streak: int): (d: int)
    ensures streak >= 1 ==> 1 <= d <= 7 && d == (streak - 1) % 7 + 1
    ensures streak < 1 ==> -5 <= d <= 1
  {
    Rem(streak - 1, 7) + 1
  }

  /** For a positive streak the label is a day from 1 to 7 and names the
      very calendar entry that is offered. */
  lemma DayLabelNamesOffer(streak: int)
    requires streak >= 1
    ensures 1 <= DayLabel(streak) <= 7
    ensures DayLabel(streak) == RewardIndex(streak) + 1
    ensures TodayReward(streak).day == DayLabel(streak)
  {
  }

  /** Week cell `i` gets the "completed" background. */
  predicate IsCompleted(streak: int, i: int) {
    i < Rem(streak, 7) || (Rem(streak, 7) == 0 && streak > 0)
  }

  /** Week cell `i` gets the "today" border. */
  predicate HasTodayBorder(streak: int, i: int) {
    i == Rem(streak - 1, 7)
  }

  /** The border of each of the seven cells. */
  function Borders(streak: int): (r: seq<bool>)
    ensures |r| == 7
    ensures forall i :: 0 <= i < 7 ==> (r[i] <==> HasTodayBorder(streak, i))
  {
    Marked(7, Rem(streak - 1, 7))
  }

  /** For a positive streak exactly one cell, the one of the labelled day,
      carries the "today" border. */
  lemma OneTodayBorder(streak: int)
    requires streak >= 1
    ensures CountTrue(Borders(streak)) == 1
    ensures HasTodayBorder(streak, DayLabel(streak) - 1)
  {
    CountMarked(7, Rem(streak - 1, 7));
  }

  /** Whether each of the seven cells is drawn completed. */
  function CompletedCells(streak: int): (r: seq<bool>)
    ensures |r| == 7
    ensures forall i :: 0 <= i < 7 ==> (r[i] <==> IsCompleted(streak, i))
  {
    seq(7, i => IsCompleted(streak, i))
  }

  /** The three looks of a week cell. */
  datatype CellLook = Completed | Today | Upcoming

  /** The cell's background as the dialog chooses it: the completed test is
      made before the today test. */
  function CellLookAsWritten(streak: int, i: int): (look: CellLook)
    ensures streak >= 1 ==> look != Today
    ensures look == Completed <==> IsCompleted(streak, i)
  {
    if IsCompleted(streak, i) then Completed
    else if HasTodayBorder(streak, i) then Today
    else Upcoming
  }

  /** As written, for every positive streak the cells drawn completed are
      exactly the first `DayLabel` ones: the current day itself is counted
      as completed, so the "today" background is never drawn. */
  lemma TodayCellDrawnCompleted(streak: int)
    requires streak >= 1
    ensures CountTrue(CompletedCells(streak)) == DayLabel(streak)
    ensures CellLookAsWritten(streak, DayLabel(streak) - 1) == Completed
    ensures forall i :: 0 <= i < 7 ==> CellLookAsWritten(streak, i) != Today
  {
    var limit := if Rem(streak, 7) == 0 then 7 else Rem(streak, 7);
    assert CompletedCells(streak) == Below(7, limit);
    CountBelow(7, limit);
  }

  /** The first day of a streak shows its own cell as already completed. */
  lemma FirstDayCounterexample()
    ensures CellLookAsWritten(1, 0) == Completed
  {
  }

  /** The corrected background: the today test first, then the completed
      test. */
  function CellLookIntended(streak: int, i: int): (look: CellLook)
    ensures look == Today <==> HasTodayBorder(streak, i)
    ensures streak >= 1 && 0 <= i < 7 ==> (look == Completed <==> i < DayLabel(streak) - 1)
  {
    if HasTodayBorder(streak, i) then Today
    else if IsCompleted(streak, i) then Completed
    else Upcoming
  }

  /** Corrected, the week row for a positive streak reads: days before the
      labelled day completed, the labelled day as today, later days
      upcoming. */
  lemma IntendedWeekRow(streak: int)
    requires streak >= 1
    ensures forall i :: 0 <= i < 7 ==>
      CellLookIntended(streak, i) ==
        if i < DayLabel(streak) - 1 then Completed
        else if i == DayLabel(streak) - 1 then Today
        else Upcoming
  {
  }
}
