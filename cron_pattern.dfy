/**
 * The CRON pre-validation pattern of the scheduler registry, stated as the
 * language it accepts.  The registry checks an expression with an unanchored
 * regular-expression search, so an expression passes when SOME substring of it
 * matches one of the three top-level alternatives:
 *
 *   1. `/(@(annually|yearly|monthly|weekly|daily|hourly|reboot))`
 *   2. `(@every (\d+(ns|us|µs|ms|s|m|h))+)`
 *   3. `((((\d+,)+\d+|(\d+(\/|-)\d+)|\d+|\*) ?){5,7})`
 *
 * The first alternative, as written, begins with a literal slash.  `AcceptsAsWritten`
 * is the pattern as written; `Accepts` is the pattern with that slash removed.
 * A registry searches with one of the two, chosen by a `Pattern` value
 * (`Search`).
 */
module CronPattern {

  /** `\d`: one decimal digit. */
  predicate IsDigit(c: char) {
    '0' <= c <= '9'
  }

  /** `\d+`: a non-empty run of digits. */
  predicate IsNumber(t: string) {
    |t| > 0 && forall i | 0 <= i < |t| :: IsDigit(t[i])
  }

  /** `(\d+,)+\d+`: two or more numbers separated by commas. */
  predicate IsList(t: string)
    decreases |t|
  {
    exists k {:trigger IsNumber(t[..k])} | 0 < k < |t| ::
      IsNumber(t[..k]) && t[k] == ',' && (IsNumber(t[k + 1..]) || IsList(t[k + 1..]))
  }

  /** `\d+(\/|-)\d+`: a range or a step. */
  predicate IsRangeOrStep(t: string) {
    exists k {:trigger IsNumber(t[..k])} | 0 < k < |t| :: IsNumber(t[..k]) && (t[k] == '/' || t[k] == '-') && IsNumber(t[k + 1..])
  }

  /** One CRON field: a list, a range or step, a number or `*`. */
  predicate IsToken(t: string) {
    IsList(t) || IsRangeOrStep(t) || IsNumber(t) || t == "*"
  }

  /** A field followed by an optional single space. */
  predicate IsField(t: string) {
    IsToken(t) || (|t| > 0 && t[|t| - 1] == ' ' && IsToken(t[..|t| - 1]))
  }

  /** `t` is exactly `n` non-empty pieces one after the other, each satisfying `P`. */
  predicate Repeated(P: string -> bool, t: string, n: nat)
    decreases n
  {
    if n == 0 then t == []
    else exists k | 0 < k <= |t| :: P(t[..k]) && Repeated(P, t[k..], n - 1)
  }

  /** `t` is exactly `n` fields (each with its optional space) one after the other. */
  predicate IsFields(t: string, n: nat) {
    Repeated(IsField, t, n)
  }

  /** Third alternative: five to seven fields. */
  predicate IsCronFields(t: string) {
    IsFields(t, 5) || IsFields(t, 6) || IsFields(t, 7)
  }

  /** The duration units of `@every`; the micro sign is U+00B5. */
  const Units: set<string> := {"ns", "us", "\U{00B5}s", "ms", "s", "m", "h"}

  /** `\d+(ns|us|µs|ms|s|m|h)`: one duration. */
  predicate IsDuration(t: string) {
    exists k {:trigger IsNumber(t[..k])} | 0 < k < |t| :: IsNumber(t[..k]) && t[k..] in Units
  }

  /** One or more durations one after the other. */
  predicate IsDurations(t: string) {
    exists n | 1 <= n <= |t| :: Repeated(IsDuration, t, n)
  }

  const EveryPrefix: string := "@every "

  /** Second alternative: `@every ` and one or more durations. */
  predicate IsEvery(t: string) {
    |t| >= |EveryPrefix| && t[..|EveryPrefix|] == EveryPrefix && IsDurations(t[|EveryPrefix|..])
  }

  /** The named schedules. */
  const Aliases: set<string> := {"annually", "yearly", "monthly", "weekly", "daily", "hourly", "reboot"}

  /** First alternative as written: a slash, `@` and an alias name. */
  predicate IsSlashAlias(t: string) {
    |t| >= 2 && t[0] == '/' && t[1] == '@' && t[2..] in Aliases
  }

  /** First alternative without the slash: `@` and an alias name. */
  predicate IsAlias(t: string) {
    |t| >= 1 && t[0] == '@' && t[1..] in Aliases
  }

  predicate MatchesAsWritten(t: string) {
    IsSlashAlias(t) || IsEvery(t) || IsCronFields(t)
  }

  predicate Matches(t: string) {
    IsAlias(t) || IsEvery(t) || IsCronFields(t)
  }

  /** The search as written: some substring of `s` matches the pattern. */
  predicate AcceptsAsWritten(s: string) {
    exists i, j | 0 <= i <= j <= |s| :: MatchesAsWritten(s[i..j])
  }

  /** The search with the alias alternative corrected. */
  predicate Accepts(s: string) {
    exists i, j | 0 <= i <= j <= |s| :: Matches(s[i..j])
  }

  /** Which form of the pattern a pre-check searches with. */
  datatype Pattern = AsWritten | Corrected

  /** The pre-check's search with the given form of the pattern. */
  predicate Search(pattern: Pattern, s: string) {
    match pattern
    case AsWritten => AcceptsAsWritten(s)
    case Corrected => Accepts(s)
  }

  // ---------------------------------------------------------------------------
  // Digits and asterisks: every field starts with one.

  predicate IsMark(c: char) {
    IsDigit(c) || c == '*'
  }

  /** The number of digits and asterisks in `t`. */
  function Marks(t: string): nat
    decreases |t|
  {
    if t == [] then 0 else (if IsMark(t[0]) then 1 else 0) + Marks(t[1..])
  }

  /** Counting splits over a cut. */
  lemma {:induction false} MarksSplit(t: string, k: nat)
    requires k <= |t|
    ensures Marks(t) == Marks(t[..k]) + Marks(t[k..])
    decreases k
  {
    if k == 0 {
      assert t[..k] == [] && t[k..] == t;
    } else {
      MarksSplit(t[1..], k - 1);
      assert t[..k][0] == t[0] && t[..k][1..] == t[1..][..k - 1];
      assert t[1..][k - 1..] == t[k..];
    }
  }

  /** A substring never has more digits and asterisks than the whole. */
  lemma MarksOfSlice(s: string, i: nat, j: nat)
    requires i <= j <= |s|
    ensures Marks(s[i..j]) <= Marks(s)
  {
    MarksSplit(s, i);
    MarksSplit(s[i..], j - i);
    assert s[i..][..j - i] == s[i..j];
  }

  /** A CRON token starts with a digit or an asterisk. */
  lemma TokenStartsWithMark(u: string)
    requires IsToken(u)
    ensures |u| > 0 && IsMark(u[0])
  {
    if IsList(u) {
      var k :| 0 < k < |u| && IsNumber(u[..k]) && u[k] == ',' && (IsNumber(u[k + 1..]) || IsList(u[k + 1..]));
      assert u[..k][0] == u[0];
    } else if IsRangeOrStep(u) {
      var k :| 0 < k < |u| && IsNumber(u[..k]) && (u[k] == '/' || u[k] == '-') && IsNumber(u[k + 1..]);
      assert u[..k][0] == u[0];
    }
  }

  /** So does a field, with or without its trailing space. */
  lemma FieldStartsWithMark(t: string)
    requires IsField(t)
    ensures |t| > 0 && IsMark(t[0])
  {
    if IsToken(t) {
      TokenStartsWithMark(t);
    } else {
      TokenStartsWithMark(t[..|t| - 1]);
      assert t[..|t| - 1][0] == t[0];
    }
  }

  /** Fields start with a digit or an asterisk. */
  lemma FieldsStartWithMark(t: string, n: nat)
    requires n > 0 && IsFields(t, n)
    ensures |t| > 0 && IsMark(t[0])
  {
    var k :| 0 < k <= |t| && IsField(t[..k]) && IsFields(t[k..], n - 1);
    FieldStartsWithMark(t[..k]);
    assert t[..k][0] == t[0];
  }

  /** A field holds at least one digit or asterisk. */
  lemma FieldHasMark(t: string)
    requires IsField(t)
    ensures Marks(t) >= 1
  {
    FieldStartsWithMark(t);
  }

  /** `n` fields hold at least `n` digits or asterisks. */
  lemma {:induction false} FieldsHaveMarks(t: string, n: nat)
    requires IsFields(t, n)
    ensures Marks(t) >= n
    decreases n
  {
    if n > 0 {
      var k :| 0 < k <= |t| && IsField(t[..k]) && IsFields(t[k..], n - 1);
      FieldsHaveMarks(t[k..], n - 1);
      FieldHasMark(t[..k]);
      MarksSplit(t, k);
    }
  }

  /** A text with fewer than five digits and asterisks never matches the third alternative. */
  lemma FewMarksNoCronFields(s: string, i: nat, j: nat)
    requires i <= j <= |s| && Marks(s) < 5
    ensures !IsCronFields(s[i..j])
  {
    MarksOfSlice(s, i, j);
    if IsFields(s[i..j], 5) { FieldsHaveMarks(s[i..j], 5); }
    if IsFields(s[i..j], 6) { FieldsHaveMarks(s[i..j], 6); }
    if IsFields(s[i..j], 7) { FieldsHaveMarks(s[i..j], 7); }
  }

  // ---------------------------------------------------------------------------
  // Properties of the accepted language.

  /**
   * The finding: no text made only of characters other than slash, space, digit
   * and asterisk passes the check as written; in particular no alias does.
   */
  lemma PlainWordRejectedAsWritten(s: string)
    requires forall c | c in s :: c != '/' && c != ' ' && !IsMark(c)
    ensures !AcceptsAsWritten(s)
  {
    forall i, j | 0 <= i <= j <= |s|
      ensures !MatchesAsWritten(s[i..j])
    {
      var t := s[i..j];
      assert |t| > 0 ==> t[0] == s[i] && s[i] in s;
      assert |t| > 6 ==> t[6] == s[i + 6] && s[i + 6] in s;
      if IsFields(t, 5) { FieldsStartWithMark(t, 5); }
      if IsFields(t, 6) { FieldsStartWithMark(t, 6); }
      if IsFields(t, 7) { FieldsStartWithMark(t, 7); }
    }
  }

  /** Every alias in the crontab(5) special-string form, `@daily` say, fails the check as written. */
  lemma AliasesRejectedAsWritten(a: string)
    requires a in Aliases
    ensures !AcceptsAsWritten("@" + a)
  {
    PlainWordRejectedAsWritten("@" + a);
  }

  /** With the slash removed, every alias passes. */
  lemma AliasesAccepted(a: string)
    requires a in Aliases
    ensures Accepts("@" + a)
  {
    var s := "@" + a;
    assert s[0..|s|] == s;
    assert s[1..] == a;
    assert Matches(s[0..|s|]);
  }

  /** The correction only widens the check: what passed before still passes. */
  lemma AcceptedAsWrittenStillAccepted(s: string)
    requires AcceptsAsWritten(s)
    ensures Accepts(s)
  {
    var i, j :| 0 <= i <= j <= |s| && MatchesAsWritten(s[i..j]);
    if IsSlashAlias(s[i..j]) {
      assert s[i + 1..j] == s[i..j][1..];
      assert s[i + 1..j][1..] == s[i..j][2..];
      assert Matches(s[i + 1..j]);
    } else {
      assert Matches(s[i..j]);
    }
  }

  /** `@every <n><unit>` passes, for every number and unit. */
  lemma EveryAccepted(n: string, u: string)
    requires IsNumber(n) && u in Units
    ensures AcceptsAsWritten(EveryPrefix + n + u) && Accepts(EveryPrefix + n + u)
  {
    var s := EveryPrefix + n + u;
    var d := s[|EveryPrefix|..];
    assert d == n + u;
    assert d[..|n|] == n && d[|n|..] == u;
    assert IsDuration(d);
    assert d[..|d|] == d && d[|d|..] == [];
    assert Repeated(IsDuration, d, 1);
    assert IsDurations(d);
    assert s[0..|s|] == s;
    assert s[..|EveryPrefix|] == EveryPrefix;
    assert IsEvery(s[0..|s|]);
    assert MatchesAsWritten(s[0..|s|]) && Matches(s[0..|s|]);
  }

  /** `@every ` and one or more durations one after the other, `1h30m` say, passes. */
  lemma EveryDurationsAccepted(d: string, n: nat)
    requires n >= 1 && Repeated(IsDuration, d, n)
    ensures AcceptsAsWritten(EveryPrefix + d) && Accepts(EveryPrefix + d)
  {
    RepeatedLength(IsDuration, d, n);
    assert IsDurations(d);
    var s := EveryPrefix + d;
    assert s[0..|s|] == s;
    assert s[..|EveryPrefix|] == EveryPrefix && s[|EveryPrefix|..] == d;
    assert IsEvery(s[0..|s|]);
    assert MatchesAsWritten(s[0..|s|]) && Matches(s[0..|s|]);
  }

  /** `n` non-empty pieces take at least `n` characters. */
  lemma {:induction false} RepeatedLength(P: string -> bool, t: string, n: nat)
    requires Repeated(P, t, n)
    ensures |t| >= n
    decreases n
  {
    if n > 0 {
      var k :| 0 < k <= |t| && P(t[..k]) && Repeated(P, t[k..], n - 1);
      RepeatedLength(P, t[k..], n - 1);
    }
  }

  /** A number and a unit in front of `m` durations make `m + 1` durations. */
  lemma DurationCons(n: string, u: string, rest: string, m: nat)
    requires IsNumber(n) && u in Units && Repeated(IsDuration, rest, m)
    ensures Repeated(IsDuration, n + u + rest, m + 1)
  {
    var d := n + u;
    assert d[..|n|] == n && d[|n|..] == u;
    assert IsDuration(d);
    RepeatedCons(IsDuration, d, rest, m);
  }

  // ---------------------------------------------------------------------------
  // Well-formed CRON expressions: tokens separated by single spaces.

  /** The tokens `ts` joined by single spaces. */
  function Spaced(ts: seq<string>): string
    decreases |ts|
  {
    if |ts| == 0 then []
    else if |ts| == 1 then ts[0]
    else ts[0] + " " + Spaced(ts[1..])
  }

  /** Tokens joined by single spaces are that many fields. */
  lemma {:induction false} SpacedFields(ts: seq<string>)
    requires forall k | 0 <= k < |ts| :: IsToken(ts[k])
    ensures IsFields(Spaced(ts), |ts|)
    decreases |ts|
  {
    if |ts| == 1 {
      var t := ts[0];
      TokenStartsWithMark(t);
      assert IsField(t);
      RepeatedCons(IsField, t, [], 0);
      assert t + [] == t;
    } else if |ts| > 1 {
      var f := ts[0] + " ";
      TokenStartsWithMark(ts[0]);
      assert f[..|f| - 1] == ts[0];
      assert IsField(f);
      SpacedFields(ts[1..]);
      RepeatedCons(IsField, f, Spaced(ts[1..]), |ts| - 1);
    }
  }

  /** Five to seven fields are a match of the third alternative. */
  lemma FieldsAreCronFields(t: string, n: nat)
    requires 5 <= n <= 7 && IsFields(t, n)
    ensures IsCronFields(t)
  {
  }

  /**
   * A well-formed CRON expression, five to seven tokens separated by single
   * spaces (`0 12 * * 1-5` say), passes both as written and corrected.
   */
  lemma WellFormedCronAccepted(ts: seq<string>)
    requires 5 <= |ts| <= 7 && forall k | 0 <= k < |ts| :: IsToken(ts[k])
    ensures AcceptsAsWritten(Spaced(ts)) && Accepts(Spaced(ts))
  {
    var s := Spaced(ts);
    SpacedFields(ts);
    assert s[0..|s|] == s;
    FieldsAreCronFields(s[0..|s|], |ts|);
    assert MatchesAsWritten(s[0..|s|]) && Matches(s[0..|s|]);
  }

  /** A run of digits and asterisks is that many one-character fields. */
  lemma {:induction false} MarksAreFields(t: string)
    requires forall c | c in t :: IsMark(c)
    ensures IsFields(t, |t|)
    decreases |t|
  {
    if t != [] {
      MarksAreFields(t[1..]);
      var f := t[..1];
      assert f == [t[0]];
      assert t[0] in t;
      if IsDigit(t[0]) {
        assert IsNumber(f);
      } else {
        assert f == "*";
      }
      assert IsField(t[..1]);
    }
  }

  /**
   * Adjacent digits count as separate fields, because the space after a field is
   * optional: any text holding five digits or asterisks in a row passes.
   */
  lemma FiveMarksAccepted(s: string, i: nat)
    requires i + 5 <= |s|
    requires forall k | i <= k < i + 5 :: IsMark(s[k])
    ensures AcceptsAsWritten(s) && Accepts(s)
  {
    var t := s[i..i + 5];
    assert forall c | c in t :: IsMark(c);
    MarksAreFields(t);
    assert MatchesAsWritten(t) && Matches(t);
  }

  /**
   * So a four-field expression passes when its last field has two digits:
   * every text holding something shaped like `1 2 3 45` at some position `i`.
   */
  lemma FourFieldsAccepted(s: string, i: nat)
    requires i + 8 <= |s| && s[i + 1] == ' ' && s[i + 3] == ' ' && s[i + 5] == ' '
    requires IsDigit(s[i]) && IsDigit(s[i + 2]) && IsDigit(s[i + 4]) && IsDigit(s[i + 6]) && IsDigit(s[i + 7])
    ensures AcceptsAsWritten(s) && Accepts(s)
  {
    var j := i + 8;
    assert forall c | c in s[i + 6..j] :: IsMark(c);
    MarksAreFields(s[i + 6..j]);
    SpacedDigitCons(s, i + 4, j, 2);
    SpacedDigitCons(s, i + 2, j, 3);
    SpacedDigitCons(s, i, j, 4);
    assert MatchesAsWritten(s[i..j]) && Matches(s[i..j]);
  }

  /** A digit and a space in front of `n` fields make `n + 1` fields. */
  lemma SpacedDigitCons(s: string, i: nat, j: nat, n: nat)
    requires i + 2 <= j <= |s| && IsDigit(s[i]) && s[i + 1] == ' ' && IsFields(s[i + 2..j], n)
    ensures IsFields(s[i..j], n + 1)
  {
    var f := s[i..i + 2];
    assert f[..1] == [s[i]];
    assert IsNumber(f[..1]);
    assert IsField(f);
    RepeatedCons(IsField, f, s[i + 2..j], n);
    assert f + s[i + 2..j] == s[i..j];
  }

  /** A text without `@` and with fewer than five digits and asterisks is rejected. */
  lemma FewMarksRejected(s: string)
    requires '@' !in s && Marks(s) < 5
    ensures !Accepts(s)
  {
    forall i, j | 0 <= i <= j <= |s|
      ensures !Matches(s[i..j])
    {
      FewMarksNoMatch(s, i, j);
    }
  }

  /** One substring of such a text: it starts neither with `@` nor with five fields. */
  lemma FewMarksNoMatch(s: string, i: nat, j: nat)
    requires i <= j <= |s| && '@' !in s && Marks(s) < 5
    ensures !Matches(s[i..j])
  {
    FewMarksNoCronFields(s, i, j);
    assert |s[i..j]| > 0 ==> s[i..j][0] == s[i] && s[i] in s;
    NoAtStart(s[i..j]);
  }

  /** A text that does not start with `@` is neither an alias nor an `@every`. */
  lemma NoAtStart(t: string)
    requires |t| > 0 ==> t[0] != '@'
    ensures !IsAlias(t) && !IsEvery(t)
  {
    assert |t| >= |EveryPrefix| ==> t[..|EveryPrefix|][0] == t[0];
  }

  /** Four asterisk fields are rejected. */
  lemma FourStarsRejected()
    ensures !Accepts("* * * *")
  {
    var s := "* * * *";
    assert s[..6] == "* * * " && s[..6][..5] == "* * *";
    assert s[..4] == "* *" + " " && s[..4][..3] == "* *";
    assert s[..2] == "* " && s[..2][..1] == "*";
    assert Marks(s) == 4;
    FewMarksRejected(s);
  }

  // ---------------------------------------------------------------------------
  // Under search, the upper bound of `{5,7}` plays no part.

  /** A piece in front of `n` pieces makes `n + 1` pieces. */
  lemma RepeatedCons(P: string -> bool, f: string, r: string, n: nat)
    requires |f| > 0 && P(f) && Repeated(P, r, n)
    ensures Repeated(P, f + r, n + 1)
  {
    assert (f + r)[..|f|] == f && (f + r)[|f|..] == r;
  }

  /** The first `m` of `n` pieces form a prefix, which ends at `p`. */
  lemma {:induction false} RepeatedPrefix(P: string -> bool, t: string, n: nat, m: nat) returns (p: nat)
    requires Repeated(P, t, n) && m <= n
    ensures p <= |t| && Repeated(P, t[..p], m)
    decreases n
  {
    if m == n {
      p := |t|;
      assert t[..p] == t;
    } else if m == 0 {
      p := 0;
    } else {
      var k :| 0 < k <= |t| && P(t[..k]) && Repeated(P, t[k..], n - 1);
      var p' := RepeatedPrefix(P, t[k..], n - 1, m - 1);
      p := k + p';
      assert t[..p] == t[..k] + t[k..][..p'];
      RepeatedCons(P, t[..k], t[k..][..p'], m - 1);
    }
  }

  /** The first `m` of `n` pieces of a slice form a slice of their own, ending at `j'`. */
  lemma SlicePrefix(P: string -> bool, s: string, i: nat, j: nat, n: nat, m: nat) returns (j': nat)
    requires i <= j <= |s| && m <= n && Repeated(P, s[i..j], n)
    ensures i <= j' <= j && Repeated(P, s[i..j'], m)
  {
    var p := RepeatedPrefix(P, s[i..j], n, m);
    RepeatedOfSlicePrefix(P, s, i, j, p, m);
    j' := i + p;
  }

  /**
   * Under search the upper bound of `{5,7}` plays no part: a match of five to
   * seven fields holds a match of exactly five.
   */
  lemma CronFieldsHoldFiveFields(s: string, i: nat, j: nat) returns (j': nat)
    requires i <= j <= |s| && IsCronFields(s[i..j])
    ensures i <= j' <= j && IsFields(s[i..j'], 5)
  {
    var n := if IsFields(s[i..j], 5) then 5 else if IsFields(s[i..j], 6) then 6 else 7;
    j' := SlicePrefix(IsField, s, i, j, n, 5);
  }

  /** A prefix of a slice is a slice of the text itself. */
  lemma RepeatedOfSlicePrefix(P: string -> bool, s: string, i: nat, j: nat, p: nat, n: nat)
    requires i <= j <= |s| && p <= j - i && Repeated(P, s[i..j][..p], n)
    ensures Repeated(P, s[i..i + p], n)
  {
    assert s[i..j][..p] == s[i..i + p];
  }
}
