/** The cutoff timestamp put into an archive clause, and what it makes of an accepted policy. An
    instant is a number of seconds, negative before the year 0. */
module ArchiveCutoff {
  import opened ArchiveWhere
  import opened Rfc3339
  import opened Text

  /** The calendar repeats every four hundred years. */
  const CYCLE := 146097 * DAY

  /** Cycles that bring an instant to the year 0 or later. */
  function Cycles(t: int): (k: nat)
    ensures t + k * CYCLE >= 0
    ensures t >= 0 ==> k == 0
  {
    if t >= 0 then 0 else (CYCLE - 1 - t) / CYCLE
  }

  function Shifted(t: int): (c: Civil)
    ensures Valid(c)
  {
    if t >= 0 then CivilOf(t) else CivilOf(t + Cycles(t) * CYCLE)
  }

  function YearOf(t: int): int {
    Shifted(t).year - 400 * Cycles(t)
  }

  /** A year before 0 is written with a sign. */
  function SignedYear(y: int): string {
    if y < 0 then "-" + YearText(-y) else YearText(y)
  }

  /** Month, day and time of day, with the separators around them. */
  function AfterYear(c: Civil): string
    requires Valid(c)
  {
    "-" + Two(c.month) + "-" + Two(c.day) + " " + TimeText(c)
  }

  /** The text of an instant, of any year, as archive clauses hold it. */
  function CutoffText(t: int): string {
    SignedYear(YearOf(t)) + AfterYear(Shifted(t))
  }

  /** For instants from the year 0 on this is the usual form. */
  lemma CutoffIsDateTime(t: nat)
    ensures CutoffText(t) == DateTime(t)
  {
    SameCivil(t);
    CivilTexts(CivilOf(t));
  }

  lemma SameCivil(t: nat)
    ensures Shifted(t) == CivilOf(t) && YearOf(t) == CivilOf(t).year
  {
  }

  lemma CivilTexts(c: Civil)
    requires Valid(c)
    ensures SignedYear(c.year) + AfterYear(c) == DateText(c) + " " + TimeText(c)
  {
    Regroup(YearText(c.year), Two(c.month), Two(c.day), TimeText(c));
  }

  lemma Regroup(y: string, m: string, d: string, w: string)
    ensures y + ("-" + m + "-" + d + " " + w) == (y + "-" + m + "-" + d) + " " + w
  {
  }

  predicate TwoDigits(s: string) {
    |s| == 2 && IsDigit(s[0]) && IsDigit(s[1])
  }

  lemma TwoIsDigits(n: int)
    requires 0 <= n < 100
    ensures TwoDigits(Two(n))
  {
  }

  lemma TailShape(mo: string, d: string, h: string, mi: string, se: string)
    requires TwoDigits(mo) && TwoDigits(d) && TwoDigits(h) && TwoDigits(mi) && TwoDigits(se)
    ensures var s := "-" + mo + "-" + d + " " + (h + ":" + mi + ":" + se);
            |s| == 15 && TimestampLike(s)
  {
    var s := "-" + mo + "-" + d + " " + (h + ":" + mi + ":" + se);
    assert s == ['-', mo[0], mo[1], '-', d[0], d[1], ' ', h[0], h[1], ':', mi[0], mi[1], ':', se[0], se[1]];
  }

  lemma AfterYearShape(c: Civil)
    requires Valid(c)
    ensures |AfterYear(c)| == 15 && TimestampLike(AfterYear(c))
  {
    TwoIsDigits(c.month);
    TwoIsDigits(c.day);
    TwoIsDigits(c.hour);
    TwoIsDigits(c.minute);
    TwoIsDigits(c.second);
    TailShape(Two(c.month), Two(c.day), Two(c.hour), Two(c.minute), Two(c.second));
  }

  lemma SignedYearShape(y: int)
    ensures TimestampLike(SignedYear(y)) && SignedYear(y) != "" && SignedYear(y)[|SignedYear(y)| - 1] != '-'
    ensures 0 <= y < 10000 ==> |SignedYear(y)| == 4
  {
    YearDigits(if y < 0 then -y else y);
  }

  lemma Joined(a: string, b: string)
    requires TimestampLike(a) && TimestampLike(b) && a != "" && a[|a| - 1] != '-'
    ensures TimestampLike(a + b)
  {
    var s := a + b;
    forall i | 0 <= i < |s| - 1
      ensures !(s[i] == '-' && s[i + 1] == '-')
    {
      if i >= |a| {
        assert s[i] == b[i - |a|] && s[i + 1] == b[i + 1 - |a|];
      }
    }
  }

  /** A formatted cutoff holds digits, separators and at most one sign, never two dashes in a row, and
      has nineteen characters for the years 0 to 9999. */
  lemma CutoffIsTimestamp(t: int, cutoff: string)
    requires cutoff == CutoffText(t)
    ensures TimestampLike(cutoff)
    ensures 0 <= YearOf(t) < 10000 ==> |cutoff| == 19
  {
    SignedYearShape(YearOf(t));
    AfterYearShape(Shifted(t));
    Joined(SignedYear(YearOf(t)), AfterYear(Shifted(t)));
  }

  /** The text of a cutoff in the years 0 to 9999: YYYY-MM-DD hh:mm:ss. */
  lemma CutoffMeaning(t: nat)
    requires InTextRange(t)
    ensures var s, c := CutoffText(t), CivilOf(t);
            && |s| == 19 && s[4] == '-' && s[7] == '-' && s[10] == ' ' && s[13] == ':' && s[16] == ':'
            && ReadsTwo(s, 0, c.year / 100) && ReadsTwo(s, 2, c.year % 100) && ReadsTwo(s, 5, c.month) && ReadsTwo(s, 8, c.day)
            && ReadsTwo(s, 11, c.hour) && ReadsTwo(s, 14, c.minute) && ReadsTwo(s, 17, c.second)
  {
    CutoffIsDateTime(t);
    StampMeaning(t);
    SpaceForT(DateText(CivilOf(t)), TimeText(CivilOf(t)), Stamp(t), DateTime(t));
  }

  lemma SpaceForT(date: string, time: string, stamp: string, text: string)
    requires stamp == date + "T" + time + "Z" && text == date + " " + time && |stamp| == 20
    requires stamp[10] == 'T' && stamp[4] == '-' && stamp[7] == '-' && |time| == 8
    ensures |text| == 19 && text[10] == ' ' && forall i :: 0 <= i < 19 && i != 10 ==> text[i] == stamp[i]
  {
    assert |date| == 10;
  }

  /** An accepted policy can fail to materialise only by exceeding 2048 characters, whatever the year of
      its cutoff: each `:cutoff` is replaced by the quoted text, so it adds |cutoff| - 5 characters. The
      cutoff lies `retentionDays` days of 86400 seconds before `now`. */
  lemma PolicyMaterializes(template: string, retentionDays: int, now: nat, at: int, cutoff: string)
    requires Accepts(template, retentionDays)
    requires at == now - retentionDays * DAY && cutoff == CutoffText(at)
    ensures var w := Materialize(template, retentionDays, cutoff);
            && (w.Ok? <==> |TrimSpace(template)| + Count(TrimSpace(template), CUTOFF) * (|cutoff| - 5) <= 2048)
            && (w.Ok? ==> SafeWhere(w.clause) && !Contains(w.clause, CUTOFF))
  {
    CutoffIsTimestamp(at, cutoff);
    AnyWidth(template, retentionDays, cutoff);
  }

  lemma AnyWidth(template: string, retentionDays: int, cutoff: string)
    requires Accepts(template, retentionDays) && TimestampLike(cutoff)
    ensures var w := Materialize(template, retentionDays, cutoff);
            && (w.Ok? <==> |TrimSpace(template)| + Count(TrimSpace(template), CUTOFF) * (|cutoff| - 5) <= 2048)
            && (w.Ok? ==> SafeWhere(w.clause) && !Contains(w.clause, CUTOFF))
  {
    MaterializeAccepted(template, retentionDays, cutoff);
    assert |Quote(cutoff)| - |CUTOFF| == |cutoff| - 5;
  }
}
