/** The client's timing syntax, after `src/tadmor.c`: lists of values and ranges, `*` and `-`. */
module TimingText {
  import opened Text
  import opened Masks
  import opened Bytes
  import Commands

  type Timing = Commands.Timing

  const INT_MAX := 0x7fff_ffff
  const LONG_MAX := 0x7fff_ffff_ffff_ffff

  // ---------- numbers ----------

  predicate IsSpace(c: char) {
    c == ' ' || '\t' <= c <= '\r'
  }

  function SkipSpaces(s: string): (k: nat)
    ensures k <= |s|
  {
    if s != [] && IsSpace(s[0]) then 1 + SkipSpaces(s[1..]) else 0
  }

  /** The length of the run of digits at the front of `s`. */
  function DigitsSpan(s: string): (k: nat)
    ensures k <= |s| && AllDigits(s[..k])
    ensures k < |s| ==> !IsDigit(s[k])
  {
    if s != [] && IsDigit(s[0]) then
      var k := DigitsSpan(s[1..]);
      assert s[..1 + k] == [s[0]] + s[1..][..k];
      1 + k
    else 0
  }

  /**
   `strtol(s, &end, 10)` followed by the tests on `errno` and `*end`: the value when all of `s` was
   read and it fits a `long`. Spaces, a sign and even an empty text are accepted.
   */
  function Strtol(s: string): Option<int> {
    var i := SkipSpaces(s);
    var j := if i < |s| && (s[i] == '+' || s[i] == '-') then i + 1 else i;
    var k := DigitsSpan(s[j..]);
    if k == 0 then (if s == [] then Some(0) else None)
    else if j + k < |s| then None
    else
      var v: int := DecimalValue(s[j..][..k]);
      var signed := if j > i && s[i] == '-' then -v else v;
      if -LONG_MAX - 1 <= signed <= LONG_MAX then Some(signed) else None
  }

  /** The conversion from `long` to a 32-bit `int`, which keeps the low 32 bits. */
  function ToInt(v: int): (r: int)
    ensures -INT_MAX - 1 <= r <= INT_MAX
    ensures 0 <= v <= INT_MAX ==> r == v
  {
    var low := v % 0x1_0000_0000;
    if low <= INT_MAX then low else low - 0x1_0000_0000
  }

  function IndexOf(s: string, c: char): (k: nat)
    ensures k <= |s| && c !in s[..k]
    ensures k < |s| ==> s[k] == c
  {
    if s == [] || s[0] == c then 0 else 1 + IndexOf(s[1..], c)
  }

  /** `parse_value_or_range`: "5" or "5-10". */
  function ParseValueOrRange(token: string): Option<(int, int)> {
    var dash := IndexOf(token, '-');
    if dash < |token| then
      var v1, v2 := Strtol(token[..dash]), Strtol(token[dash + 1..]);
      if v1.None? || v2.None? || v1.value < 0 || v2.value < 0 || v1.value > v2.value then None
      else Some((ToInt(v1.value), ToInt(v2.value)))
    else
      var v := Strtol(token);
      if v.None? || v.value < 0 then None else Some((ToInt(v.value), ToInt(v.value)))
  }

  // ---------- lists ----------

  /** The successive answers of `strtok(_, ",")`: the maximal non-empty pieces without a comma. */
  function Tokens(s: string): seq<string>
    decreases |s|
  {
    if s == [] then [] else
    var k := IndexOf(s, ',');
    if k == 0 then Tokens(s[1..]) else [s[..k]] + Tokens(s[k..])
  }

  /** What `parse_list` makes of one token. */
  predicate Accepted(token: string, max: int) {
    var range := ParseValueOrRange(token);
    range.Some? && range.value.0 <= max && range.value.1 <= max
  }

  predicate Covers(token: string, i: int) {
    var range := ParseValueOrRange(token);
    range.Some? && range.value.0 <= i <= range.value.1
  }

  ghost predicate CoveredBy(tokens: seq<string>, i: int) {
    exists token | token in tokens :: Covers(token, i)
  }

  /** No `1ULL << i` with a negative `i`, which C leaves undefined. */
  predicate ShiftsDefined(token: string, max: int) {
    Accepted(token, max) ==> var range := ParseValueOrRange(token).value; range.0 <= range.1 ==> 0 <= range.0
  }

  /**
   What `parse_list` promises: `*` is every value up to `max`, `-` is none, and otherwise the mask
   holds exactly the values covered by some token, provided every token is accepted.
   */
  ghost predicate IsParse(s: string, max: nat, r: Option<nat>) {
    if s == "*" then r == Some(Ones(max + 1))
    else if s == "-" then r == Some(0)
    else
      && (r.Some? <==> forall token | token in Tokens(s) :: Accepted(token, max))
      && (r.Some? ==>
        && r.value < Pow2(max + 1)
        && forall i: nat :: Bit(r.value, i) <==> CoveredBy(Tokens(s), i))
  }

  /** At most one outcome has that meaning. */
  lemma ParseIsUnique(s: string, max: nat, r1: Option<nat>, r2: Option<nat>)
    requires IsParse(s, max, r1) && IsParse(s, max, r2)
    ensures r1 == r2
  {
    if s != "*" && s != "-" && r1.Some? {
      forall i: nat | i < max + 1 ensures Bit(r1.value, i) <==> Bit(r2.value, i) {
      }
      SameBits(r1.value, r2.value, max + 1);
    }
  }

  /** `strtok`: the next token, if any, and what follows it. */
  method NextToken(s: string) returns (token: Option<string>, rest: string)
    ensures |rest| <= |s|
    ensures token.None? <==> Tokens(s) == []
    ensures token.Some? ==> |rest| < |s| && Tokens(s) == [token.value] + Tokens(rest)
  {
    rest := s;
    while rest != [] && rest[0] == ','
      invariant |rest| <= |s| && Tokens(rest) == Tokens(s)
    {
      rest := rest[1..];
    }
    if rest == [] {
      return None, [];
    }
    var k := IndexOf(rest, ',');
    token, rest := Some(rest[..k]), rest[k..];
  }

  lemma NoneCovered(i: int)
    ensures !CoveredBy([], i)
  {
  }

  lemma OneMoreCovered(tokens: seq<string>, token: string, i: int)
    ensures CoveredBy(tokens + [token], i) <==> CoveredBy(tokens, i) || Covers(token, i)
    ensures Covers(token, i) <==>
      ParseValueOrRange(token).Some? && ParseValueOrRange(token).value.0 <= i <= ParseValueOrRange(token).value.1
  {
    hide ParseValueOrRange, Covers;
    if CoveredBy(tokens, i) {
      var t :| t in tokens && Covers(t, i);
      assert t in tokens + [token];
    }
    if Covers(token, i) {
      assert token in tokens + [token];
    }
    assert Covers(token, i) <==>
      ParseValueOrRange(token).Some? && ParseValueOrRange(token).value.0 <= i <= ParseValueOrRange(token).value.1
      by { CoversMeaning(token, i); }
  }

  lemma CoversMeaning(token: string, i: int)
    ensures Covers(token, i) <==>
      ParseValueOrRange(token).Some? && ParseValueOrRange(token).value.0 <= i <= ParseValueOrRange(token).value.1
  {
  }

  lemma RangeCheck(token: string, max: int)
    ensures var range := ParseValueOrRange(token);
      && (Accepted(token, max) <==> range.Some? && range.value.0 <= max && range.value.1 <= max)
      && (!ShiftsDefined(token, max) <==> Accepted(token, max) && range.value.0 <= range.value.1 && range.value.0 < 0)
  {
    hide ParseValueOrRange;
  }

  /** No token makes the code shift by a negative amount. */
  ghost predicate Defined(s: string, max: int) { forall token | token in Tokens(s) :: ShiftsDefined(token, max) }

  lemma SpecialTexts(max: nat)
    ensures IsParse("*", max, Some(Ones(max + 1))) && IsParse("-", max, Some(0))
  {
  }

  lemma ListRefused(s: string, max: nat, token: string)
    requires s != "*" && s != "-" && token in Tokens(s) && !Accepted(token, max)
    ensures IsParse(s, max, None)
  {
    hide Tokens, Accepted;
  }

  lemma ShiftUndefined(s: string, max: nat, token: string)
    requires token in Tokens(s) && !ShiftsDefined(token, max)
    ensures !Defined(s, max)
  {
    hide Tokens, ShiftsDefined;
  }

  lemma ListParsed(s: string, max: nat, bits: nat)
    requires s != "*" && s != "-" && forall token | token in Tokens(s) :: Accepted(token, max)
    requires bits < Pow2(max + 1) && forall i: nat :: Bit(bits, i) <==> CoveredBy(Tokens(s), i)
    ensures IsParse(s, max, Some(bits))
  {
    hide Tokens, Accepted, Pow2, Bit, CoveredBy;
  }

  /** Where C leaves the shift undefined, the outcome is arbitrary. */
  method ParseList(s: string, max: nat) returns (r: Option<nat>)
    requires max < 63
    ensures Defined(s, max) ==> IsParse(s, max, r)
  {
    hide ParseValueOrRange, Tokens, SetBit, Bit, Pow2, Ones, CoveredBy, Covers, Accepted, ShiftsDefined;
    hide IsParse, Defined;
    if s == "*" {
      SpecialTexts(max);
      return Some(Ones(max + 1));
    }
    if s == "-" {
      SpecialTexts(max);
      return Some(0);
    }
    var bits: nat := 0;
    var token, rest := NextToken(s);
    ghost var seen: seq<string> := [];
    assert Tokens(s) == seen + (if token.Some? then [token.value] + Tokens(rest) else []);
    forall i: nat ensures !Bit(bits, i) && !CoveredBy([], i) {
      ZeroBits(i);
      NoneCovered(i);
    }
    while token.Some?
      invariant Tokens(s) == seen + (if token.Some? then [token.value] + Tokens(rest) else [])
      invariant forall t | t in seen :: Accepted(t, max)
      invariant bits < Pow2(max + 1)
      invariant forall i: nat :: Bit(bits, i) <==> CoveredBy(seen, i)
      decreases token.Some?, |rest|
    {
      assert token.value in Tokens(s);
      var range := ParseValueOrRange(token.value);
      RangeCheck(token.value, max);
      if range.None? || range.value.0 > max || range.value.1 > max {
        ListRefused(s, max, token.value);
        return None;
      }
      if range.value.0 < 0 && range.value.0 <= range.value.1 {
        ShiftUndefined(s, max, token.value);
        r := *;
        return;
      }
      forall i
        ensures CoveredBy(seen + [token.value], i) <==> CoveredBy(seen, i) || range.value.0 <= i <= range.value.1
      {
        OneMoreCovered(seen, token.value, i);
      }
      bits := SetRange(bits, range.value.0, range.value.1, max);
      seen := seen + [token.value];
      token, rest := NextToken(rest);
    }
    assert Tokens(s) == seen;
    ListParsed(s, max, bits);
    r := Some(bits);
  }

  /** The loop `for (i = start; i <= end; i++) bits |= 1ULL << i`. */
  method SetRange(bits: nat, start: int, end: int, max: nat) returns (r: nat)
    requires start <= end ==> 0 <= start && end <= max
    requires bits < Pow2(max + 1)
    ensures r < Pow2(max + 1)
    ensures forall i: nat :: Bit(r, i) <==> Bit(bits, i) || start <= i <= end
  {
    hide SetBit, Bit;
    r := bits;
    var i := start;
    while i <= end
      invariant start <= i && (i <= end + 1 || i == start)
      invariant r < Pow2(max + 1)
      invariant forall j: nat :: Bit(r, j) <==> Bit(bits, j) || start <= j < i
    {
      SetBitFits(r, i, max + 1);
      forall j: nat ensures Bit(SetBit(r, i), j) <==> j == i || Bit(r, j) {
        SetBitSets(r, i, j);
      }
      r := SetBit(r, i);
      i := i + 1;
    }
  }

  /** The three fields: minutes, hours and days of the week. */
  method ParseMinutes(s: string) returns (r: Option<nat>)
    ensures Defined(s, 59) ==> IsParse(s, 59, r)
  {
    r := ParseList(s, 59);
  }

  method ParseHours(s: string) returns (r: Option<nat>)
    ensures Defined(s, 23) ==> IsParse(s, 23, r)
  {
    r := ParseList(s, 23);
  }

  method ParseDays(s: string) returns (r: Option<nat>)
    ensures Defined(s, 6) ==> IsParse(s, 6, r)
  {
    r := ParseList(s, 6);
  }

  // ---------- printing ----------

  /** The last index of the run of set bits that starts at `i`. */
  function RunEnd(m: nat, n: nat, i: nat): (e: nat)
    requires i < n && Bit(m, i)
    ensures i <= e < n
    ensures forall k: nat | i <= k <= e :: Bit(m, k)
    ensures e + 1 < n ==> !Bit(m, e + 1)
    decreases n - i
  {
    if i + 1 < n && Bit(m, i + 1) then RunEnd(m, n, i + 1) else i
  }

  function Comma(first: bool): string { if first then "" else "," }

  function RangeText(lo: nat, hi: nat): (s: string)
    ensures s != []
  {
    if lo == hi then Decimal(lo) else Decimal(lo) + "-" + Decimal(hi)
  }

  /** The runs of `m` from `i` on, separated by commas. */
  function RunsText(m: nat, n: nat, i: nat, first: bool): string
    decreases n - i
  {
    if i >= n then "" else
    if Bit(m, i) then
      var e := RunEnd(m, n, i);
      Comma(first) + (RangeText(i, e) + RunsText(m, n, e + 1, false))
    else RunsText(m, n, i + 1, first)
  }

  /** One field: `full` is the other mask printed as `*`. */
  function FieldText(m: nat, n: nat, full: nat): string {
    if m == full || m == Ones(n) then "*" else if m == 0 then "-" else RunsText(m, n, 0, true)
  }

  const ALL_MINUTES: nat := 0xffff_ffff_ffff_ffff
  const ALL_HOURS: nat := 0xffff_ffff
  const ALL_DAYS: nat := 0x7f

  /** What `format_timing_display` prints. */
  function DisplayText(t: Timing): string {
    FieldText(t.minutes, 60, ALL_MINUTES) + " " +
    FieldText(t.hours, 24, ALL_HOURS) + " " +
    FieldText(t.days, 7, ALL_DAYS)
  }

  lemma ShortDecimal(n: nat)
    requires n < 100
    ensures |Decimal(n)| <= 2
  {
  }

  /** Two characters for each position left, and two more, are always enough. */
  lemma {:induction false} RunsBound(m: nat, n: nat, i: nat)
    requires n <= 60 && i <= n
    ensures |RunsText(m, n, i, true)| <= |RunsText(m, n, i, false)| <= 2 * (n - i) + 2
    decreases n - i
  {
    hide Bit, Decimal;
    if i >= n {
    } else {
      if Bit(m, i) {
        var e := RunEnd(m, n, i);
        ShortDecimal(i);
        ShortDecimal(e);
        if e + 2 <= n {
          RunsBound(m, n, e + 2);
          assert RunsText(m, n, e + 1, false) == RunsText(m, n, e + 2, false);
        }
      } else {
        RunsBound(m, n, i + 1);
      }
    }
  }

  /** The text and its final NUL fit the 256 characters of the caller, with room to spare. */
  lemma DisplayFits(t: Timing)
    ensures |DisplayText(t)| <= 190
  {
    hide RunsText, Ones;
    RunsBound(t.minutes, 60, 0);
    RunsBound(t.hours, 24, 0);
    RunsBound(t.days, 7, 0);
  }

  /** `strcat(out, s)`, where `len` is the current position of the NUL. */
  method Strcat(out: array<char>, len: nat, s: string) returns (newLen: nat)
    requires len + |s| < out.Length
    modifies out
    ensures newLen == len + |s|
    ensures out[..newLen] == old(out[..len]) + s
    ensures out[newLen] == '\0'
  {
    for i := 0 to |s|
      invariant out[..len + i] == old(out[..len]) + s[..i]
    {
      out[len + i] := s[i];
      assert out[..len + i + 1] == out[..len + i] + [s[i]];
    }
    newLen := len + |s|;
    out[newLen] := '\0';
    assert s[..|s|] == s;
  }

  method AppendRange(out: array<char>, len: nat, first: bool, rangeStart: nat, rangeEnd: nat) returns (newLen: nat)
    requires len + |Comma(first)| + |RangeText(rangeStart, rangeEnd)| < out.Length
    modifies out
    ensures newLen == len + |Comma(first)| + |RangeText(rangeStart, rangeEnd)|
    ensures out[..newLen] == old(out[..len]) + Comma(first) + RangeText(rangeStart, rangeEnd)
    ensures out[newLen] == '\0'
  {
    hide Decimal;
    newLen := len;
    if !first {
      newLen := Strcat(out, newLen, ",");
    }
    if rangeStart == rangeEnd {
      newLen := Strcat(out, newLen, Decimal(rangeStart));
    } else {
      newLen := Strcat(out, newLen, Decimal(rangeStart) + "-" + Decimal(rangeEnd));
    }
  }

  lemma Regroup(a: string, b: string, c: string, d: string)
    ensures a + b + c + d == a + (b + (c + d))
  {
  }

  /** The run-finding loops, the same for the three fields. */
  method AppendRuns(out: array<char>, len: nat, m: nat, n: nat) returns (newLen: nat)
    requires n <= 60
    requires len + |RunsText(m, n, 0, true)| < out.Length
    modifies out
    ensures newLen == len + |RunsText(m, n, 0, true)|
    ensures out[..newLen] == old(out[..len]) + RunsText(m, n, 0, true)
    ensures newLen > len ==> out[newLen] == '\0'
    ensures newLen == len ==> out[..] == old(out[..])
  {
    hide Bit, RangeText;
    newLen := len;
    var first := true;
    var i := 0;
    ghost var text := RunsText(m, n, 0, true);
    ghost var before := out[..len];
    while i < n
      invariant len <= newLen
      invariant newLen + |RunsText(m, n, i, first)| == len + |text|
      invariant out[..newLen] + RunsText(m, n, i, first) == before + text
      invariant newLen > len ==> out[newLen] == '\0'
      invariant newLen == len ==> out[..] == old(out[..])
    {
      if Bit(m, i) {
        var rangeEnd := i;
        while rangeEnd + 1 < n && Bit(m, rangeEnd + 1)
          invariant i <= rangeEnd < n
          invariant Bit(m, rangeEnd)
          invariant RunEnd(m, n, rangeEnd) == RunEnd(m, n, i)
        {
          rangeEnd := rangeEnd + 1;
        }
        ghost var tail := RunsText(m, n, rangeEnd + 1, false);
        ghost var printed := out[..newLen];
        assert RunsText(m, n, i, first) == Comma(first) + (RangeText(i, rangeEnd) + tail);
        newLen := AppendRange(out, newLen, first, i, rangeEnd);
        Regroup(printed, Comma(first), RangeText(i, rangeEnd), tail);
        i := rangeEnd;
        first := false;
      }
      i := i + 1;
    }
    assert out[..newLen] == before + text;
  }

  method AppendField(out: array<char>, len: nat, m: nat, n: nat, full: nat) returns (newLen: nat)
    requires 0 < n <= 60 && len + |FieldText(m, n, full)| < out.Length
    requires out[len] == '\0'
    modifies out
    ensures newLen == len + |FieldText(m, n, full)|
    ensures out[..newLen] == old(out[..len]) + FieldText(m, n, full)
    ensures out[newLen] == '\0'
  {
    hide RunsText, Ones;
    if m == full || m == Ones(n) {
      newLen := Strcat(out, len, "*");
    } else if m == 0 {
      newLen := Strcat(out, len, "-");
    } else {
      newLen := AppendRuns(out, len, m, n);
    }
  }

  /** `format_timing_display` into the 256-character buffer of its caller. */
  method FormatTimingDisplay(t: Timing, out: array<char>) returns (len: nat)
    requires out.Length == 256
    modifies out
    ensures len < 256 && out[len] == '\0'
    ensures out[..len] == DisplayText(t)
    ensures Regular(t) ==> Shows(out[..len], t)
  {
    hide FieldText, Shows, Regular;
    DisplayFits(t);
    if Regular(t) { DisplayShows(t); }
    if t.minutes == 0 && t.hours == 0 && t.days == 0 {
      out[0] := '\0';
      assert out[..0] == "";
      EmptyDisplay(t);
      len := Strcat(out, 0, "- - -");
      return;
    }
    out[0] := '\0';
    len := AppendField(out, 0, t.minutes, 60, ALL_MINUTES);
    len := Strcat(out, len, " ");
    len := AppendField(out, len, t.hours, 24, ALL_HOURS);
    len := Strcat(out, len, " ");
    len := AppendField(out, len, t.days, 7, ALL_DAYS);
  }

  lemma EmptyDisplay(t: Timing)
    requires t.minutes == 0 && t.hours == 0 && t.days == 0
    ensures DisplayText(t) == "- - -"
  {
    assert Ones(60) > 0 && Ones(24) > 0 && Ones(7) > 0;
  }

  // ---------- reading back a list ----------

  datatype Range = Range(lo: nat, hi: nat)

  /** A list as a user writes it: values and increasing ranges, in any order, overlapping or not. */
  function ListText(ranges: seq<Range>, first: bool): string {
    if ranges == [] then "" else Comma(first) + (RangeText(ranges[0].lo, ranges[0].hi) + ListText(ranges[1..], false))
  }

  lemma {:induction false} AllDigitsSpan(s: string)
    requires AllDigits(s)
    ensures DigitsSpan(s) == |s|
  {
    if s == [] {
    } else {
      AllDigitsSpan(s[1..]);
    }
  }

  /** Plain numerals are read as the number they stand for, up to the range of `long`. */
  lemma StrtolDecimal(n: nat)
    ensures Strtol(Decimal(n)) == if n <= LONG_MAX then Some(n) else None
  {
    hide DecimalValue, Decimal;
    var s := Decimal(n);
    DecimalRoundTrip(n);
    assert IsDigit(s[0]);
    AllDigitsSpan(s);
    assert s[0..] == s && s[..|s|] == s;
  }

  lemma {:induction false} IndexOfAbsent(s: string, c: char, rest: string)
    requires c !in s
    requires rest != [] ==> rest[0] == c
    ensures IndexOf(s + rest, c) == |s|
  {
    if s == [] {
      assert s + rest == rest;
    } else {
      assert (s + rest)[1..] == s[1..] + rest;
      IndexOfAbsent(s[1..], c, rest);
    }
  }

  lemma NumeralChars(n: nat)
    ensures '-' !in Decimal(n) && ',' !in Decimal(n) && ' ' !in Decimal(n)
    ensures IsDigit(Decimal(n)[0])
  {
    DecimalRoundTrip(n);
    assert !IsDigit('-') && !IsDigit(',') && !IsDigit(' ');
  }

  /** What a printed range is parsed as. Bounds above the range of `int` are silently reduced to it. */
  lemma RangeParses(lo: nat, hi: nat)
    requires lo <= hi
    ensures ParseValueOrRange(RangeText(lo, hi)) == if hi <= LONG_MAX then Some((ToInt(lo), ToInt(hi))) else None
    ensures RangeText(lo, hi) != [] && ',' !in RangeText(lo, hi) && ' ' !in RangeText(lo, hi)
    ensures IsDigit(RangeText(lo, hi)[0])
  {
    hide Strtol, Decimal, ToInt;
    var token := RangeText(lo, hi);
    NumeralChars(lo);
    NumeralChars(hi);
    StrtolDecimal(lo);
    StrtolDecimal(hi);
    if lo == hi {
      IndexOfAbsent(token, '-', "");
      assert token + "" == token;
    } else {
      IndexOfAbsent(Decimal(lo), '-', "-" + Decimal(hi));
      assert token == Decimal(lo) + ("-" + Decimal(hi));
      assert token[..|Decimal(lo)|] == Decimal(lo);
      assert token[|Decimal(lo)| + 1..] == Decimal(hi);
    }
  }

  function RangeTokens(ranges: seq<Range>): seq<string> {
    if ranges == [] then [] else [RangeText(ranges[0].lo, ranges[0].hi)] + RangeTokens(ranges[1..])
  }

  ghost predicate Increasing(ranges: seq<Range>) { forall r | r in ranges :: r.lo <= r.hi }

  lemma TokensStep(token: string, rest: string)
    requires token != [] && ',' !in token
    requires rest != [] ==> rest[0] == ','
    ensures Tokens(token + rest) == [token] + Tokens(rest)
    ensures Tokens("," + (token + rest)) == [token] + Tokens(rest)
  {
    var s := token + rest;
    IndexOfAbsent(token, ',', rest);
    assert s[..|token|] == token && s[|token|..] == rest;
    assert ("," + s)[1..] == s;
  }

  /** Each comma separates: empty pieces, wherever they are, give no token. */
  lemma {:induction false} TokensConcat(a: string, b: string)
    ensures Tokens(a + ("," + b)) == Tokens(a) + Tokens(b)
    decreases |a|
  {
    hide IndexOf, Tokens;
    var s := a + ("," + b);
    if a == [] {
      assert s == "," + b && s[1..] == b;
      CommaFirst(s);
    } else if a[0] == ',' {
      CommaFirst(a);
      CommaFirst(s);
      assert s[1..] == a[1..] + ("," + b);
      TokensConcat(a[1..], b);
    } else {
      var k := IndexOf(a, ',');
      var token, rest := a[..k], a[k..] + ("," + b);
      TokensStep(token, a[k..]);
      TokensStep(token, rest);
      assert token + a[k..] == a && token + rest == s;
      TokensConcat(a[k..], b);
      assert [token] + (Tokens(a[k..]) + Tokens(b)) == [token] + Tokens(a[k..]) + Tokens(b);
    }
  }

  lemma CommaFirst(s: string)
    requires s != [] && s[0] == ','
    ensures Tokens(s) == Tokens(s[1..]) && Tokens("") == []
  {
  }

  /** A piece without a comma is one token. */
  lemma OneToken(s: string)
    requires s != [] && ',' !in s
    ensures Tokens(s) == [s]
  {
    hide IndexOf;
    IndexOfAbsent(s, ',', "");
    assert s + "" == s && s[..|s|] == s && s[|s|..] == "";
    NoTokens();
  }

  lemma {:induction false} TokensOfList(ranges: seq<Range>, first: bool)
    requires Increasing(ranges)
    ensures Tokens(ListText(ranges, first)) == RangeTokens(ranges)
    ensures ranges == [] ==> ListText(ranges, first) == ""
    ensures ranges != [] && !first ==> ListText(ranges, first)[0] == ','
    ensures ranges != [] && first ==> IsDigit(ListText(ranges, first)[0])
  {
    hide Tokens, RangeText;
    if ranges == [] {
      assert Tokens("") == [] by { NoTokens(); }
    } else {
      var token := RangeText(ranges[0].lo, ranges[0].hi);
      var rest := ListText(ranges[1..], false);
      RangeParses(ranges[0].lo, ranges[0].hi);
      TokensOfList(ranges[1..], false);
      TokensStep(token, rest);
      assert "" + (token + rest) == token + rest;
    }
  }

  lemma NoTokens()
    ensures Tokens("") == []
  {
  }

  lemma {:induction false} RangeTokenOf(ranges: seq<Range>, token: string)
    ensures token in RangeTokens(ranges) <==> exists r | r in ranges :: token == RangeText(r.lo, r.hi)
  {
    hide RangeText;
    if ranges == [] {
    } else {
      RangeTokenOf(ranges[1..], token);
    }
  }

  ghost predicate InSome(ranges: seq<Range>, i: int) { exists r | r in ranges :: r.lo <= i <= r.hi }

  /** The promise of the documentation: the union of the ranges, or a failure if one exceeds the maximum. */
  ghost predicate IsUnion(ranges: seq<Range>, max: nat, r: Option<nat>) {
    if forall x | x in ranges :: x.hi <= max
    then r.Some? && r.value < Pow2(max + 1) && forall i: nat :: Bit(r.value, i) <==> InSome(ranges, i)
    else r == None
  }

  /** The code accepts a range: it fits a `long`, and its bounds, converted to `int`, are not above the maximum. */
  predicate Taken(x: Range, max: nat) {
    x.hi <= LONG_MAX && ToInt(x.lo) <= max && ToInt(x.hi) <= max
  }

  /** The values that the code takes a list to stand for. */
  ghost predicate InSomeConverted(ranges: seq<Range>, i: int) {
    exists r | r in ranges :: ToInt(r.lo) <= i <= ToInt(r.hi)
  }

  /** What the code makes of a list, for all bounds. */
  ghost predicate IsConvertedUnion(ranges: seq<Range>, max: nat, r: Option<nat>) {
    if forall x | x in ranges :: Taken(x, max)
    then r.Some? && r.value < Pow2(max + 1) && forall i: nat :: Bit(r.value, i) <==> InSomeConverted(ranges, i)
    else r == None
  }

  /** `parse_list` on a list of unsigned values and increasing ranges, whatever their size. */
  lemma ListMeaning(ranges: seq<Range>, max: nat, r: Option<nat>)
    requires Increasing(ranges)
    ensures IsParse(ListText(ranges, true), max, r) <==> IsConvertedUnion(ranges, max, r)
  {
    hide Tokens, ParseValueOrRange, RangeText, ToInt, Bit, Pow2, ListText, Accepted, Covers, InSomeConverted, Taken;
    var s := ListText(ranges, true);
    TokensOfList(ranges, true);
    assert s != "*" && s != "-" by {
      assert !IsDigit('*') && !IsDigit('-');
    }
    forall x | x in ranges
      ensures RangeText(x.lo, x.hi) in Tokens(s)
      ensures Accepted(RangeText(x.lo, x.hi), max) <==> Taken(x, max)
    {
      RangeTokenOf(ranges, RangeText(x.lo, x.hi));
      RangeAccepted(x, max);
    }
    forall token | token in Tokens(s) ensures exists x | x in ranges :: token == RangeText(x.lo, x.hi) {
      RangeTokenOf(ranges, token);
    }
    if forall x | x in ranges :: Taken(x, max) {
      assert forall token | token in Tokens(s) :: Accepted(token, max);
      forall i: nat ensures InSomeConverted(ranges, i) <==> CoveredBy(Tokens(s), i) {
        CoveredByRanges(ranges, max, i);
      }
    } else {
      var x :| x in ranges && !Taken(x, max);
      assert RangeText(x.lo, x.hi) in Tokens(s) && !Accepted(RangeText(x.lo, x.hi), max);
    }
  }

  lemma RangeAccepted(x: Range, max: nat)
    requires x.lo <= x.hi
    ensures Accepted(RangeText(x.lo, x.hi), max) <==> Taken(x, max)
    ensures Taken(x, max) ==> forall i :: Covers(RangeText(x.lo, x.hi), i) <==> ToInt(x.lo) <= i <= ToInt(x.hi)
  {
    hide RangeText, ParseValueOrRange, ToInt;
    RangeParses(x.lo, x.hi);
  }

  lemma CoveredByRanges(ranges: seq<Range>, max: nat, i: int)
    requires Increasing(ranges) && forall x | x in ranges :: Taken(x, max)
    ensures InSomeConverted(ranges, i) <==> CoveredBy(Tokens(ListText(ranges, true)), i)
  {
    hide Tokens, ParseValueOrRange, RangeText, ToInt, ListText, Accepted, Covers, Taken;
    var tokens := Tokens(ListText(ranges, true));
    TokensOfList(ranges, true);
    if InSomeConverted(ranges, i) {
      var x :| x in ranges && ToInt(x.lo) <= i <= ToInt(x.hi);
      RangeTokenOf(ranges, RangeText(x.lo, x.hi));
      RangeAccepted(x, max);
      assert Covers(RangeText(x.lo, x.hi), i);
    }
    if CoveredBy(tokens, i) {
      var token :| token in tokens && Covers(token, i);
      RangeTokenOf(ranges, token);
      var x :| x in ranges && token == RangeText(x.lo, x.hi);
      RangeAccepted(x, max);
    }
  }

  /**
   The promise is kept exactly when no range exceeds the maximum, or when one is not accepted: it
   fails for a list that exceeds the maximum only with bounds that the conversion to `int` reduces.
   */
  lemma ListAsPromisedIff(ranges: seq<Range>, max: nat, r: Option<nat>)
    requires Increasing(ranges) && max <= INT_MAX
    requires IsParse(ListText(ranges, true), max, r)
    ensures IsUnion(ranges, max, r) <==>
      (forall x | x in ranges :: x.hi <= max) || (exists x | x in ranges :: !Taken(x, max))
  {
    hide IsParse, ListText, ToInt, Bit, Pow2, InSome, InSomeConverted;
    ListMeaning(ranges, max, r);
    if forall x | x in ranges :: x.hi <= max {
      assert forall x | x in ranges :: Taken(x, max);
      forall i: nat ensures InSome(ranges, i) <==> InSomeConverted(ranges, i) {
        NothingConverted(ranges, i);
      }
    }
  }

  lemma NothingConverted(ranges: seq<Range>, i: int)
    requires Increasing(ranges) && forall x | x in ranges :: x.hi <= INT_MAX
    ensures InSome(ranges, i) <==> InSomeConverted(ranges, i)
  {
    hide ToInt;
    if InSome(ranges, i) {
      var x :| x in ranges && x.lo <= i <= x.hi;
      assert ToInt(x.lo) <= i <= ToInt(x.hi);
    }
    if InSomeConverted(ranges, i) {
      var x :| x in ranges && ToInt(x.lo) <= i <= ToInt(x.hi);
      assert x.lo <= i <= x.hi;
    }
  }

  /**
   The range check is made after the conversion to `int`: a value above the maximum is refused
   exactly when its low 32 bits, read as an `int`, still exceed it (or when it overflows `long`).
   */
  lemma ValueAccepted(n: nat, max: nat)
    ensures Accepted(Decimal(n), max) <==> n <= LONG_MAX && ToInt(n) <= max
  {
    RangeParses(n, n);
  }

  /** So "4294967296" passes for minute 0. */
  lemma LargeValueTakenForZero()
    ensures Accepted(Decimal(0x1_0000_0000), 59) && Covers(Decimal(0x1_0000_0000), 0)
  {
    RangeParses(0x1_0000_0000, 0x1_0000_0000);
  }

  // ---------- reading back what was printed ----------

  function Runs(m: nat, n: nat, i: nat): seq<Range>
    decreases n - i
  {
    if i >= n then [] else
    if Bit(m, i) then [Range(i, RunEnd(m, n, i))] + Runs(m, n, RunEnd(m, n, i) + 1) else Runs(m, n, i + 1)
  }

  /** On ranges within the maximum, the code and the promise agree. */
  lemma ShortList(ranges: seq<Range>, max: nat, r: Option<nat>)
    requires Increasing(ranges) && max <= INT_MAX && forall x | x in ranges :: x.hi <= max
    ensures IsParse(ListText(ranges, true), max, r) <==> IsUnion(ranges, max, r)
  {
    hide IsParse, ListText, ToInt, Bit, Pow2, InSome, InSomeConverted;
    ListMeaning(ranges, max, r);
    forall i: nat ensures InSome(ranges, i) <==> InSomeConverted(ranges, i) {
      NothingConverted(ranges, i);
    }
  }

  lemma {:induction false} RunsAreListed(m: nat, n: nat, i: nat, first: bool)
    ensures RunsText(m, n, i, first) == ListText(Runs(m, n, i), first)
    ensures Increasing(Runs(m, n, i))
    ensures forall r | r in Runs(m, n, i) :: r.hi < n
    decreases n - i
  {
    hide Bit, RangeText;
    if i >= n {
    } else {
      if Bit(m, i) {
        RunsAreListed(m, n, RunEnd(m, n, i) + 1, false);
        assert Runs(m, n, i)[1..] == Runs(m, n, RunEnd(m, n, i) + 1);
      } else {
        RunsAreListed(m, n, i + 1, first);
      }
    }
  }

  lemma {:induction false} RunsCover(m: nat, n: nat, i: nat, k: nat)
    ensures InSome(Runs(m, n, i), k) <==> i <= k < n && Bit(m, k)
    decreases n - i
  {
    hide Bit;
    if i >= n {
    } else {
      if Bit(m, i) {
        var e := RunEnd(m, n, i);
        RunsCover(m, n, e + 1, k);
        assert Runs(m, n, i)[0] == Range(i, e);
        assert InSome(Runs(m, n, i), k) <==> i <= k <= e || InSome(Runs(m, n, e + 1), k);
      } else {
        RunsCover(m, n, i + 1, k);
      }
    }
  }

  /** Parsing a printed field gives the mask back, and nothing else. */
  lemma FieldRoundTrip(m: nat, n: nat, full: nat, r: Option<nat>)
    requires 0 < n <= 60 && m < Pow2(n)
    requires full == Ones(n) || full >= Pow2(n)
    ensures IsParse(FieldText(m, n, full), n - 1, r) <==> r == Some(m)
  {
    hide RunsText, Runs, ListText, Bit, Tokens;
    if m != full && m != Ones(n) && m != 0 {
      RunsAreListed(m, n, 0, true);
      ShortList(Runs(m, n, 0), n - 1, r);
      forall i: nat ensures InSome(Runs(m, n, 0), i) <==> Bit(m, i) {
        RunsCover(m, n, 0, i);
        if i >= n {
          NoHighBits(m, n, i);
        }
      }
      if r.Some? && r.value < Pow2(n) && forall i: nat :: Bit(r.value, i) <==> Bit(m, i) {
        SameBits(r.value, m, n);
      }
    }
  }

  /** The masks that fit the three fields. */
  predicate Regular(t: Timing) {
    t.minutes < Pow2(60) && t.hours < Pow2(24) && t.days < Pow2(7)
  }

  /** Each of the three printed fields, given back to the client, denotes the mask it came from. */
  lemma TimingRoundTrip(t: Timing, minutes: Option<nat>, hours: Option<nat>, days: Option<nat>)
    requires Regular(t)
    ensures IsParse(FieldText(t.minutes, 60, ALL_MINUTES), 59, minutes) <==> minutes == Some(t.minutes)
    ensures IsParse(FieldText(t.hours, 24, ALL_HOURS), 23, hours) <==> hours == Some(t.hours)
    ensures IsParse(FieldText(t.days, 7, ALL_DAYS), 6, days) <==> days == Some(t.days)
  {
    hide FieldText, IsParse;
    assert Pow2(7) == 128;
    assert Pow2(24) == 0x100_0000 by { PowersOfTwo(); }
    assert Pow2(60) == 0x1000_0000_0000_0000 by { PowersOfTwo(); }
    FieldRoundTrip(t.minutes, 60, ALL_MINUTES, minutes);
    FieldRoundTrip(t.hours, 24, ALL_HOURS, hours);
    FieldRoundTrip(t.days, 7, ALL_DAYS, days);
  }

  lemma PowersOfTwo()
    ensures Pow2(24) == 0x100_0000 && Pow2(30) == 0x4000_0000
    ensures Pow2(60) == 0x1000_0000_0000_0000
  {
    assert Pow2(10) == 0x400;
    assert Pow2(20) == 0x10_0000;
    assert Pow2(30) == 0x4000_0000;
    assert Pow2(40) == 0x100_0000_0000;
    assert Pow2(50) == 0x4_0000_0000_0000;
  }

  // ---------- what is displayed ----------

  /** The text reads back as the mask, and as nothing else. */
  ghost predicate Reads(s: string, max: nat, m: nat) {
    ' ' !in s && forall r: Option<nat> :: IsParse(s, max, r) <==> r == Some(m)
  }

  /** Three texts for the minutes, the hours and the days, in this order, with single spaces between them. */
  ghost predicate Shows(s: string, t: Timing) {
    exists a: string, b: string, c: string ::
      s == a + " " + b + " " + c && Reads(a, 59, t.minutes) && Reads(b, 23, t.hours) && Reads(c, 6, t.days)
  }

  lemma {:induction false} RunsHaveNoSpace(m: nat, n: nat, i: nat, first: bool)
    ensures ' ' !in RunsText(m, n, i, first)
    decreases n - i
  {
    hide Bit, RangeText;
    if i >= n {
    } else if Bit(m, i) {
      RangeParses(i, RunEnd(m, n, i));
      RunsHaveNoSpace(m, n, RunEnd(m, n, i) + 1, false);
    } else {
      RunsHaveNoSpace(m, n, i + 1, first);
    }
  }

  lemma FieldReads(m: nat, n: nat, full: nat)
    requires 0 < n <= 60 && m < Pow2(n)
    requires full == Ones(n) || full >= Pow2(n)
    ensures Reads(FieldText(m, n, full), n - 1, m)
  {
    hide RunsText, IsParse, Ones;
    RunsHaveNoSpace(m, n, 0, true);
    var s, max := FieldText(m, n, full), n - 1;
    forall r: Option<nat> ensures IsParse(s, max, r) <==> r == Some(m) {
      FieldRoundTrip(m, n, full, r);
    }
  }

  lemma DisplayShows(t: Timing)
    requires Regular(t)
    ensures Shows(DisplayText(t), t)
  {
    hide FieldText, Reads;
    assert Pow2(7) == 128;
    PowersOfTwo();
    FieldReads(t.minutes, 60, ALL_MINUTES);
    FieldReads(t.hours, 24, ALL_HOURS);
    FieldReads(t.days, 7, ALL_DAYS);
  }

  /** The first space of a text ends its first part. */
  lemma FirstSpace(a: string, rest: string)
    requires ' ' !in a
    ensures IndexOf(a + (" " + rest), ' ') == |a|
    ensures (a + (" " + rest))[..|a|] == a && (a + (" " + rest))[|a| + 1..] == rest
  {
    IndexOfAbsent(a, ' ', " " + rest);
  }

  lemma SpaceSplits(a: string, rest: string, a': string, rest': string)
    requires ' ' !in a && ' ' !in a'
    requires a + (" " + rest) == a' + (" " + rest')
    ensures a == a' && rest == rest'
  {
    hide IndexOf;
    FirstSpace(a, rest);
    FirstSpace(a', rest');
  }

  /** A displayed text shows one timing only, so two timings that look alike are the same. */
  lemma ShowsOne(s: string, t: Timing, t': Timing)
    requires Shows(s, t) && Shows(s, t')
    ensures t == t'
  {
    hide IsParse, Reads;
    var a: string, b: string, c: string :|
      s == a + " " + b + " " + c && Reads(a, 59, t.minutes) && Reads(b, 23, t.hours) && Reads(c, 6, t.days);
    var a': string, b': string, c': string :|
      s == a' + " " + b' + " " + c' && Reads(a', 59, t'.minutes) && Reads(b', 23, t'.hours) && Reads(c', 6, t'.days);
    assert s == a + (" " + (b + (" " + c))) == a' + (" " + (b' + (" " + c')));
    ReadsOne(a, 59, t.minutes, t.minutes);
    ReadsOne(b, 23, t.hours, t.hours);
    ReadsOne(a', 59, t'.minutes, t'.minutes);
    ReadsOne(b', 23, t'.hours, t'.hours);
    SpaceSplits(a, b + (" " + c), a', b' + (" " + c'));
    SpaceSplits(b, c, b', c');
    ReadsOne(a, 59, t.minutes, t'.minutes);
    ReadsOne(b, 23, t.hours, t'.hours);
    ReadsOne(c, 6, t.days, t'.days);
  }

  lemma ReadsOne(s: string, max: nat, m: nat, m': nat)
    requires Reads(s, max, m) && Reads(s, max, m')
    ensures m == m' && ' ' !in s
  {
    hide IsParse;
    assert IsParse(s, max, Some(m));
  }

  /** `*` is all the minutes, hours or days, and `-` is none. */
  lemma StarAndDash(r: Option<nat>)
    ensures IsParse("*", 59, r) <==> r == Some(0xfff_ffff_ffff_ffff)
    ensures IsParse("*", 23, r) <==> r == Some(0xff_ffff)
    ensures IsParse("*", 6, r) <==> r == Some(0x7f)
    ensures IsParse("-", 59, r) <==> r == Some(0)
  {
    assert Pow2(7) == 128;
    PowersOfTwo();
  }

  lemma {:induction false} ClearBitsSkipped(m: nat, n: nat, i: nat, j: nat, first: bool)
    requires i <= j <= n && forall k: nat | i <= k < j :: !Bit(m, k)
    ensures RunsText(m, n, i, first) == RunsText(m, n, j, first)
    decreases j - i
  {
    hide Bit, RangeText;
    if i == j {
    } else {
      ClearBitsSkipped(m, n, i + 1, j, first);
    }
  }

  lemma NothingLeft(m: nat, n: nat, first: bool)
    ensures RunsText(m, n, n, first) == ""
  {
  }

  /** A run of values is printed as one range, and a single value alone. */
  lemma OneRunShown(m: nat, n: nat, full: nat, lo: nat, hi: nat)
    requires lo <= hi < n && m != full && m != Ones(n)
    requires forall k: nat | k < n :: Bit(m, k) <==> lo <= k <= hi
    ensures FieldText(m, n, full) == if lo == hi then Decimal(lo) else Decimal(lo) + "-" + Decimal(hi)
  {
    hide Bit, Decimal, Ones;
    assert Bit(m, lo);
    assert m != 0 by { ZeroBits(lo); }
    ClearBitsSkipped(m, n, 0, lo, true);
    var e := RunEnd(m, n, lo);
    assert Bit(m, e);
    ClearBitsSkipped(m, n, hi + 1, n, false);
    NothingLeft(m, n, false);
  }

  lemma OneValueShown(v: nat, n: nat, full: nat)
    requires v < n && 2 <= n && Pow2(v) != full
    ensures FieldText(Pow2(v), n, full) == Decimal(v)
  {
    hide Bit, FieldText, Decimal, Ones;
    forall k: nat ensures Bit(Pow2(v), k) <==> k == v {
      PowerBits(v, k);
    }
    var other := if v == 0 then 1 else 0;
    OnesBits(n, other);
    OneRunShown(Pow2(v), n, full, v, v);
  }

  /** Minute 30 of hour 2 on every day. */
  lemma HalfPastTwo()
    ensures DisplayText(Timing.Timing(0x4000_0000, 4, 0x7f)) == "30 2 *"
  {
    hide FieldText, Pow2, Decimal;
    assert Pow2(30) == 0x4000_0000 by { PowersOfTwo(); }
    assert Pow2(2) == 4 by { SmallPowers(); }
    OneValueShown(30, 60, ALL_MINUTES);
    OneValueShown(2, 24, ALL_HOURS);
    Numerals();
    FullText(0x7f, 7, ALL_DAYS);
  }

  lemma SmallPowers()
    ensures Pow2(2) == 4
  {
  }

  lemma Numerals()
    ensures Decimal(2) == "2" && Decimal(30) == "30"
  {
  }

  lemma FullText(m: nat, n: nat, full: nat)
    requires m == full
    ensures FieldText(m, n, full) == "*"
  {
  }

  // ---------- numbers as strtol takes them ----------

  /** A decreasing range is refused, whatever its bounds. */
  lemma DecreasingRefused(lo: nat, hi: nat, max: int)
    requires hi < lo
    ensures !Accepted(Decimal(lo) + ("-" + Decimal(hi)), max)
  {
    hide Strtol, Decimal, ToInt;
    var token := Decimal(lo) + ("-" + Decimal(hi));
    NumeralChars(lo);
    StrtolDecimal(lo);
    StrtolDecimal(hi);
    IndexOfAbsent(Decimal(lo), '-', "-" + Decimal(hi));
    assert token[..|Decimal(lo)|] == Decimal(lo);
    assert token[|Decimal(lo)| + 1..] == Decimal(hi);
  }

  /** Spaces and a sign in front are accepted. */
  lemma LeadingSpaceAndSign()
    ensures Strtol(" 7") == Some(7) && Strtol("+7") == Some(7) && Strtol("-7") == Some(-7)
  {
    hide DecimalValue;
    StrtolDecimal(7);
    assert Decimal(7) == "7" && DecimalValue("7") == 7 by { NumeralSeven(); }
    assert " 7"[1..] == "7" && "+7"[1..] == "7" && "-7"[1..] == "7" && "7"[1..] == "";
    assert DigitsSpan("7") == 1;
    assert SkipSpaces("7") == 0 && SkipSpaces("+7") == 0 && SkipSpaces("-7") == 0 && SkipSpaces(" 7") == 1;
  }

  lemma NumeralSeven()
    ensures Decimal(7) == "7" && DecimalValue("7") == 7
  {
    assert "7"[..0] == "";
  }

  /** Nothing may follow a number. */
  lemma NothingFollows()
    ensures Strtol("7 ") == None && Strtol("7x") == None
  {
    hide DecimalValue;
    assert "7 "[0..] == "7 " && "7x"[0..] == "7x" && "7 "[1..] == " " && "7x"[1..] == "x";
    assert DigitsSpan("7 ") == 1 && DigitsSpan("7x") == 1;
  }

  /** Only the empty text is accepted without a digit: it is 0. */
  lemma NoDigits()
    ensures Strtol("") == Some(0) && Strtol("+") == None && Strtol(" ") == None && Strtol("x") == None
  {
    hide DecimalValue;
    assert SkipSpaces("") == 0 && SkipSpaces(" ") == 1;
    assert "x"[0..] == "x" && ""[0..] == "" && " "[1..] == "" && "+"[1..] == "";
    assert DigitsSpan("") == 0 && DigitsSpan("x") == 0;
  }

  /** So a token "-7" is the range from 0 to 7, and "7-" is refused. */
  lemma SignIsARange()
    ensures ParseValueOrRange("-7") == Some((0, 7)) && ParseValueOrRange("7-") == None
  {
    hide Strtol;
    LeadingSpaceAndSign();
    NoDigits();
    assert "-7"[..0] == "" && "-7"[1..] == "7" && "7-"[..1] == "7" && "7-"[2..] == "";
    assert "7-"[1..] == "-" && IndexOf("-", '-') == 0 && IndexOf("7-", '-') == 1 && IndexOf("-7", '-') == 0;
    StrtolDecimal(7);
    assert Decimal(7) == "7";
  }
}
