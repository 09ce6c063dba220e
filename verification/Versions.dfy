/** Version strings: comparing a rule's version with a plugin's, segment by segment, and
    matching rules against the main version. */
module Versions {
  import opened Basics
  import opened RunCombo
  import opened RunOptions

  // ------------------------------------------------------------ scanning numbers

  function BlanksEnd(s: string, i: nat): (k: nat)
    requires i <= |s|
    ensures i <= k <= |s|
    decreases |s| - i
  {
    if i < |s| && IsBlank(s[i]) then BlanksEnd(s, i + 1) else i
  }

  function DigitsEnd(s: string, i: nat): (k: nat)
    requires i <= |s|
    ensures i <= k <= |s|
    decreases |s| - i
  {
    if i < |s| && IsDigit(s[i]) then DigitsEnd(s, i + 1) else i
  }

  /** strtoll at the start of s: the number, and where it ends; 0 at 0 when there is none. */
  function Scan(s: string): (r: (int, nat))
    ensures r.1 <= |s|
  {
    var b := BlanksEnd(s, 0);
    var d := if b < |s| && (s[b] == '-' || s[b] == '+') then b + 1 else b;
    var e := DigitsEnd(s, d);
    if e == d then (0, 0)
    else
      var n := DigitsValue(s[d..e], 0);
      (Clamp(if d > b && s[b] == '-' then -n else n), e)
  }

  lemma {:induction false} BlanksEndIs(s: string, i: nat, k: nat)
    requires i <= k <= |s| && (k < |s| ==> !IsBlank(s[k])) && forall j :: i <= j < k ==> IsBlank(s[j])
    ensures BlanksEnd(s, i) == k
    decreases k - i
  {
    if i < k {
      BlanksEndIs(s, i + 1, k);
    }
  }

  lemma {:induction false} DigitsEndIs(s: string, i: nat, k: nat)
    requires i <= k <= |s| && (k < |s| ==> !IsDigit(s[k])) && forall j :: i <= j < k ==> IsDigit(s[j])
    ensures DigitsEnd(s, i) == k
    decreases k - i
  {
    if i < k {
      DigitsEndIs(s, i + 1, k);
    }
  }

  /** The positions in a numeral. */
  lemma NumeralParts(n: Numeral)
    ensures var s, b := Written(n), |n.blanks|;
            var d := b + |n.sign|;
            var e := d + |n.digits|;
            && |s| == e + |n.rest|
            && s[..b] == n.blanks && s[b..d] == n.sign && s[d..e] == n.digits && s[e..] == n.rest
  {
    var s, b, t := Written(n), |n.blanks|, n.digits + n.rest;
    var d := b + |n.sign|;
    assert s[b..] == n.sign + t;
    assert s[d..] == s[b..][|n.sign|..] == t;
    assert s[b..d] == s[b..][..|n.sign|];
    assert s[d..d + |n.digits|] == t[..|n.digits|];
    assert s[d + |n.digits|..] == t[|n.digits|..];
  }

  lemma NumeralEnds(n: Numeral)
    requires IsNumeral(n)
    ensures var s, b := Written(n), |n.blanks|;
            var d := b + |n.sign|;
            var e := d + |n.digits|;
            && BlanksEnd(s, 0) == b && DigitsEnd(s, d) == e <= |s| && s[d..e] == n.digits
            && (n.sign != "" ==> s[b] == n.sign[0])
            && (n.sign == "" && b < |s| ==> s[b] != '-' && s[b] != '+')
  {
    var s, b := Written(n), |n.blanks|;
    var d := b + |n.sign|;
    var e := d + |n.digits|;
    NumeralParts(n);
    hide Written;
    forall j | 0 <= j < b ensures IsBlank(s[j]) {
      assert s[j] == s[..b][j];
      BlankIs(s[j]);
    }
    forall j | d <= j < e ensures IsDigit(s[j]) {
      assert s[j] == s[d..e][j - d];
    }
    if b < |s| {
      BlankIs(s[b]);
      assert n.sign != "" ==> s[b] == s[b..d][0];
      assert n.digits != "" ==> s[d] == s[d..e][0];
      assert n.rest != "" ==> s[e] == s[e..][0];
      assert s[b] == if n.sign != "" then n.sign[0] else if n.digits != "" then n.digits[0] else n.rest[0];
    }
    assert n.rest != "" ==> s[e] == s[e..][0];
    hide BLANKS;
    BlanksEndIs(s, 0, b);
    DigitsEndIs(s, d, e);
  }

  lemma ScanAt(s: string, b: nat, d: nat, e: nat)
    requires b <= d <= e <= |s| && b == BlanksEnd(s, 0) && e == DigitsEnd(s, d)
    requires d == if b < |s| && (s[b] == '-' || s[b] == '+') then b + 1 else b
    ensures var v := DigitsValue(s[d..e], 0);
            Scan(s) == if e == d then (0, 0) else (Clamp(if d > b && s[b] == '-' then -v else v), e)
  {
    hide BlanksEnd, DigitsEnd, DigitsValue, Clamp;
  }

  lemma ScanIs(n: Numeral)
    requires IsNumeral(n)
    ensures var e := |n.blanks| + |n.sign| + |n.digits|;
            Scan(Written(n)) == if n.digits == "" then (0, 0) else (Clamp(ValueOf(n)), e)
  {
    var s, b := Written(n), |n.blanks|;
    var d := b + |n.sign|;
    NumeralEnds(n);
    DigitsArePlaces(n.digits);
    assert |n.sign| == if n.sign == "" then 0 else 1;
    assert d > b && s[b] == '-' <==> n.sign == "-";
    hide Written, IsNumeral, BlanksEnd, DigitsEnd, DigitsValue, Positional, Clamp, Scan;
    ScanAt(s, b, d, d + |n.digits|);
  }

  /** Scanning reads blanks, a sign and decimal digits and ends behind them; without digits
      it reads nothing. */
  lemma ScanReads(n: Numeral)
    requires IsNumeral(n)
    ensures var r := Scan(Written(n));
            if n.digits == "" then r == (0, 0)
            else Nearest(ValueOf(n), r.0) && r.1 == |n.blanks| + |n.sign| + |n.digits|
  {
    ScanIs(n);
    ClampIsNearest(ValueOf(n));
    hide *;
  }

  // ------------------------------------------------------------ version_compare

  /** strncmp on strings of one length: -1, 0 or 1. */
  function CompareChars(a: string, b: string): int
    requires |a| == |b|
  {
    if a == "" then 0
    else if a[0] < b[0] then -1
    else if a[0] > b[0] then 1
    else CompareChars(a[1..], b[1..])
  }

  function CompareInts(a: int, b: int): int {
    if a < b then -1 else if a > b then 1 else 0
  }

  /** The string comparison of two segments: the longer is the greater. */
  function CompareText(a: string, b: string): int {
    if |a| != |b| then CompareInts(|a|, |b|) else CompareChars(a, b)
  }

  function FirstSegment(s: string): string {
    s[..Find(s, '.')]
  }

  /** Whether a number that fills its segment starts the string. */
  predicate NumberFirst(s: string) {
    var e := Scan(s).1;
    e == |s| || s[e] == '.'
  }

  /** One turn of the loop: the comparison of the first segments, and where they end. */
  function CompareFirst(r: string, v: string): (c: (int, nat, nat))
    ensures c.1 <= |r| && c.2 <= |v|
  {
    if NumberFirst(r) && NumberFirst(v) then (CompareInts(Scan(r).0, Scan(v).0), Scan(r).1, Scan(v).1)
    else (CompareText(FirstSegment(r), FirstSegment(v)), Find(r, '.'), Find(v, '.'))
  }

  /** version_compare for a rule, which is satisfied once its own segments are used up. */
  function Compare(r: string, v: string): int
    decreases |r|
  {
    var (c, re, ve) := CompareFirst(r, v);
    if c != 0 then c
    else if re == |r| then 0
    else if ve == |v| then 1
    else if re + 1 == |r| then 0
    else if ve + 1 == |v| then 1
    else Compare(r[re + 1..], v[ve + 1..])
  }

  lemma CompareStep(r: string, v: string)
    ensures var (c, re, ve) := CompareFirst(r, v);
            Compare(r, v) == if c != 0 then c
                             else if re == |r| then 0
                             else if ve == |v| then 1
                             else if re + 1 == |r| then 0
                             else if ve + 1 == |v| then 1
                             else Compare(r[re + 1..], v[ve + 1..])
  {}

  /** The body of the loop up to the ends of the segments: string comparison unless both
      start with a number that fills its segment. */
  method CompareSegments(r: string, v: string) returns (c: int, re: nat, ve: nat)
    ensures (c, re, ve) == CompareFirst(r, v) && re <= |r| && ve <= |v|
  {
    var (ri, rEnd) := Scan(r);
    var (vi, vEnd) := Scan(v);
    re, ve := rEnd, vEnd;
    if (re < |r| && r[re] != '.') || (ve < |v| && v[ve] != '.') {
      re, ve := Find(r, '.'), Find(v, '.');
      if re < ve {
        c := -1;
      } else if re > ve {
        c := 1;
      } else {
        c := CompareChars(r[..re], v[..ve]);
      }
    } else if ri < vi {
      c := -1;
    } else if ri > vi {
      c := 1;
    } else {
      c := 0;
    }
  }

  /** version_compare with rule_compare set. */
  method VersionCompare(rule: string, ver: string) returns (ret: int)
    ensures ret == Compare(rule, ver)
  {
    hide CompareFirst, Compare;
    var ruleStart: nat, verStart: nat := 0, 0;
    assert rule[0..] == rule && ver[0..] == ver;
    while true
      invariant ruleStart <= |rule| && verStart <= |ver|
      invariant Compare(rule, ver) == Compare(rule[ruleStart..], ver[verStart..])
      decreases |rule| - ruleStart
    {
      ghost var r, v := rule[ruleStart..], ver[verStart..];
      CompareStep(r, v);
      var c, re, ve := CompareSegments(rule[ruleStart..], ver[verStart..]);
      if c != 0 {
        return c;
      }
      var ruleEnd, verEnd := ruleStart + re, verStart + ve;
      if ruleEnd == |rule| {
        return 0;
      } else if verEnd == |ver| {
        return 1;
      }
      ruleStart, verStart := ruleEnd + 1, verEnd + 1;
      if ruleStart == |rule| {
        return 0;
      } else if verStart == |ver| {
        return 1;
      }
      assert r[re + 1..] == rule[ruleStart..] && v[ve + 1..] == ver[verStart..];
    }
  }

  // ------------------------------------------------------------- segments

  function Segments(s: string): (r: seq<string>)
    ensures r != []
    decreases |s|
  {
    var k := Find(s, '.');
    if k == |s| then [s] else [s[..k]] + Segments(s[k + 1..])
  }

  predicate AllDigits(s: string) {
    forall i :: 0 <= i < |s| ==> IsDigit(s[i])
  }

  /** A segment as the documentation has it: not empty, and a number neither with sign or
      blanks nor with leading zeros nor with more digits than a long long holds. */
  predicate Proper(s: string) {
    && s != "" && Without(s, '.') && !IsBlank(s[0]) && s[0] != '-' && s[0] != '+'
    && (AllDigits(s) ==> |s| <= 18 && (s[0] != '0' || |s| == 1))
  }

  lemma {:induction false} DigitsEndBefore(s: string, i: nat, k: nat)
    requires i <= k < |s| && !IsDigit(s[k])
    ensures DigitsEnd(s, i) <= k && !IsDigit(s[DigitsEnd(s, i)])
    decreases k - i
  {
    if i < k && IsDigit(s[i]) {
      DigitsEndBefore(s, i + 1, k);
    }
  }

  lemma {:induction false} DigitsBound(s: string, acc: nat)
    requires AllDigits(s)
    ensures acc * PowTen(|s|) <= DigitsValue(s, acc) < (acc + 1) * PowTen(|s|)
    decreases |s|
  {
    if s != "" {
      var d := s[0] as int - '0' as int;
      DigitsBound(s[1..], 10 * acc + d);
      Widen(acc, d, PowTen(|s| - 1));
    }
  }

  lemma Widen(acc: nat, d: nat, p: nat)
    requires d <= 9
    ensures acc * (10 * p) <= (10 * acc + d) * p && (10 * acc + d + 1) * p <= (acc + 1) * (10 * p)
  {
    assert (10 * acc + d) * p == acc * (10 * p) + d * p;
    assert (d + 1) * p <= 10 * p;
    assert (acc + 1) * (10 * p) == acc * (10 * p) + 10 * p;
    assert (10 * acc + d + 1) * p == acc * (10 * p) + (d + 1) * p;
  }

  lemma {:induction false} PowTenGrows(a: nat, b: nat)
    requires a <= b
    ensures 1 <= PowTen(a) <= PowTen(b)
    decreases b
  {
    if a < b {
      PowTenGrows(a, b - 1);
    } else if b > 0 {
      PowTenGrows(a - 1, b - 1);
    }
  }

  lemma ProperNumberFits(s: string)
    requires Proper(s) && AllDigits(s)
    ensures 0 <= DigitsValue(s, 0) <= INT64_MAX
  {
    DigitsBound(s, 0);
    PowTenGrows(|s|, 18);
    TenToEighteen();
    hide PowTen, DigitsValue;
    var p := PowTen(|s|);
    assert 0 * p == 0 && (0 + 1) * p == p;
  }

  lemma TenToEighteen()
    ensures PowTen(18) == 1_000_000_000_000_000_000
  {
    TenToTwenty();
    assert PowTen(20) == 10 * PowTen(19) == 100 * PowTen(18);
  }

  /** A proper segment at the start of a string is scanned as a number exactly when it
      consists of digits. */
  lemma SegmentScanned(s: string)
    requires Proper(FirstSegment(s))
    ensures NumberFirst(s) <==> AllDigits(FirstSegment(s))
    ensures AllDigits(FirstSegment(s)) ==> Scan(s) == (DigitsValue(FirstSegment(s), 0), Find(s, '.'))
  {
    var g, k := FirstSegment(s), Find(s, '.');
    assert g[0] == s[0] && forall i :: 0 <= i < k ==> g[i] == s[i];
    assert BlanksEnd(s, 0) == 0;
    if AllDigits(g) {
      DigitsEndIs(s, 0, k);
      ProperNumberFits(g);
    } else {
      var j :| 0 <= j < |g| && !IsDigit(g[j]);
      DigitsEndBefore(s, 0, j);
    }
  }

  // ------------------------------------------------------ one order on segments

  /** Two numbers of one length compare as their digits do, whatever comes before. */
  lemma {:induction false} SameLengthNumbers(a: string, b: string, p: nat, q: nat)
    requires AllDigits(a) && AllDigits(b) && |a| == |b|
    ensures p < q ==> DigitsValue(a, p) < DigitsValue(b, q)
    ensures p == q ==> CompareInts(DigitsValue(a, p), DigitsValue(b, q)) == CompareChars(a, b)
    decreases |a|
  {
    if p < q {
      DigitsBound(a, p);
      DigitsBound(b, q);
      ProductsOrdered(p + 1, q, PowTen(|a|));
    }
    if a != "" {
      var x, y := a[0] as int - '0' as int, b[0] as int - '0' as int;
      SameLengthNumbers(a[1..], b[1..], 10 * p + x, 10 * q + y);
      SameLengthNumbers(b[1..], a[1..], 10 * q + y, 10 * p + x);
    }
  }

  lemma ProductsOrdered(a: nat, b: nat, c: nat)
    requires a <= b
    ensures a * c <= b * c
  {}

  /** A number with more digits and no leading zero is the greater. */
  lemma LongerIsGreater(a: string, b: string)
    requires Proper(a) && Proper(b) && AllDigits(a) && AllDigits(b) && |a| < |b|
    ensures DigitsValue(a, 0) < DigitsValue(b, 0)
  {
    var d := b[0] as int - '0' as int;
    DigitsBound(a, 0);
    DigitsBound(b[1..], d);
    PowTenGrows(|a|, |b| - 1);
    assert IsDigit(b[0]) && d >= 1;
    assert DigitsValue(b, 0) == DigitsValue(b[1..], d);
    BelowAndAbove(DigitsValue(a, 0), PowTen(|a|), PowTen(|b| - 1), d, DigitsValue(b[1..], d));
  }

  lemma BelowAndAbove(x: int, p: nat, q: nat, d: nat, y: int)
    requires x < (0 + 1) * p && p <= q && d >= 1 && d * q <= y
    ensures x < y
  {
    ProductsOrdered(1, d, q);
  }

  lemma {:induction false} CharsReversed(a: string, b: string)
    requires |a| == |b|
    ensures CompareChars(b, a) == -CompareChars(a, b) && -1 <= CompareChars(a, b) <= 1
    ensures CompareChars(a, b) == 0 <==> a == b
  {
    if a != "" {
      CharsReversed(a[1..], b[1..]);
      assert a == [a[0]] + a[1..] && b == [b[0]] + b[1..];
    }
  }

  lemma {:induction false} CharsTransitive(a: string, b: string, c: string)
    requires |a| == |b| == |c| && CompareChars(a, b) <= 0 && CompareChars(b, c) <= 0
    ensures CompareChars(a, c) <= 0
    ensures CompareChars(a, b) < 0 || CompareChars(b, c) < 0 ==> CompareChars(a, c) < 0
  {
    if a != "" && a[0] == b[0] == c[0] {
      CharsTransitive(a[1..], b[1..], c[1..]);
    }
  }

  /** The integer and the string comparison agree on numbers. */
  lemma NumbersAgree(a: string, b: string)
    requires Proper(a) && Proper(b) && AllDigits(a) && AllDigits(b)
    ensures CompareInts(DigitsValue(a, 0), DigitsValue(b, 0)) == CompareText(a, b)
  {
    if |a| < |b| {
      LongerIsGreater(a, b);
    } else if |b| < |a| {
      LongerIsGreater(b, a);
    } else {
      SameLengthNumbers(a, b, 0, 0);
    }
  }

  /** Segments are totally ordered: the comparison reverses with its arguments, is 0 for
      equal segments only, and is transitive. */
  lemma SegmentOrder(a: string, b: string, c: string)
    ensures CompareText(b, a) == -CompareText(a, b)
    ensures CompareText(a, b) == 0 <==> a == b
    ensures CompareText(a, b) <= 0 && CompareText(b, c) <= 0 ==>
              && CompareText(a, c) <= 0
              && (CompareText(a, b) < 0 || CompareText(b, c) < 0 ==> CompareText(a, c) < 0)
  {
    if |a| == |b| {
      CharsReversed(a, b);
    }
    if |a| == |b| == |c| && CompareText(a, b) <= 0 && CompareText(b, c) <= 0 {
      CharsTransitive(a, b, c);
    }
  }

  // --------------------------------------------------------- order on versions

  /** The rule's segments against the version's, as far as the rule goes. */
  function CompareLists(rs: seq<string>, vs: seq<string>): int {
    if rs == [] then 0
    else if vs == [] then 1
    else if CompareText(rs[0], vs[0]) != 0 then CompareText(rs[0], vs[0])
    else CompareLists(rs[1..], vs[1..])
  }

  predicate AllProper(ss: seq<string>) {
    forall i :: 0 <= i < |ss| ==> Proper(ss[i])
  }

  predicate ProperVersion(s: string) {
    AllProper(Segments(s))
  }

  lemma SegmentsUnfold(s: string)
    ensures var k := Find(s, '.');
            Segments(s) == if k == |s| then [s] else [s[..k]] + Segments(s[k + 1..])
    ensures Segments(s)[0] == FirstSegment(s)
  {}

  lemma FirstAndRest(s: string)
    requires ProperVersion(s)
    ensures Proper(FirstSegment(s)) && Segments(s)[0] == FirstSegment(s)
    ensures var k := Find(s, '.');
            if k == |s| then Segments(s) == [s] && FirstSegment(s) == s
            else k + 1 < |s| && ProperVersion(s[k + 1..]) && Segments(s)[1..] == Segments(s[k + 1..])
  {
    hide Find, Proper, Segments;
    SegmentsUnfold(s);
    var k := Find(s, '.');
    if k == |s| {
      assert Proper(Segments(s)[0]);
    } else {
      SegmentsUnfold(s[k + 1..]);
      ProperTail(s[..k], Segments(s[k + 1..]));
      NotEmpty(Segments(s[k + 1..])[0]);
    }
  }

  lemma ProperTail(x: string, rest: seq<string>)
    requires AllProper([x] + rest)
    ensures Proper(x) && AllProper(rest) && ([x] + rest)[1..] == rest
  {
    hide Proper;
    assert ([x] + rest)[0] == x;
    forall i | 0 <= i < |rest| ensures Proper(rest[i]) {
      assert ([x] + rest)[i + 1] == rest[i];
    }
  }

  lemma NotEmpty(s: string)
    requires Proper(s)
    ensures s != ""
  {}

  /** For proper versions the turns of version_compare, by numbers or by strings, all
      follow the one order on segments: it compares the rule lexicographically with the
      version cut to the rule's length. */
  lemma {:induction false} CompareIsLexicographic(r: string, v: string)
    requires ProperVersion(r) && ProperVersion(v)
    ensures Compare(r, v) == CompareLists(Segments(r), Segments(v))
    decreases |r|
  {
    FirstAndRest(r);
    FirstAndRest(v);
    FirstCompared(r, v);
    CompareStep(r, v);
    hide CompareFirst, Compare, Segments, ProperVersion;
    var re, ve := Find(r, '.'), Find(v, '.');
    if CompareText(FirstSegment(r), FirstSegment(v)) == 0 && re < |r| && ve < |v| {
      CompareIsLexicographic(r[re + 1..], v[ve + 1..]);
    }
  }

  lemma FirstCompared(r: string, v: string)
    requires Proper(FirstSegment(r)) && Proper(FirstSegment(v))
    ensures CompareFirst(r, v) == (CompareText(FirstSegment(r), FirstSegment(v)), Find(r, '.'), Find(v, '.'))
  {
    SegmentScanned(r);
    SegmentScanned(v);
    if AllDigits(FirstSegment(r)) && AllDigits(FirstSegment(v)) {
      NumbersAgree(FirstSegment(r), FirstSegment(v));
    }
  }

  /** A comparison of 0 means that the rule is a prefix of the version, segment by
      segment. */
  lemma {:induction false} ZeroMeansPrefix(rs: seq<string>, vs: seq<string>)
    ensures CompareLists(rs, vs) == 0 <==> rs <= vs
  {
    if rs != [] && vs != [] {
      SegmentOrder(rs[0], vs[0], vs[0]);
      ZeroMeansPrefix(rs[1..], vs[1..]);
      assert rs == [rs[0]] + rs[1..] && vs == [vs[0]] + vs[1..];
    }
  }

  // ------------------------------------------------------ the documented order

  /** How far two sequences agree. */
  function Common<T(==)>(a: seq<T>, b: seq<T>): (k: nat)
    ensures k <= |a| && k <= |b| && a[..k] == b[..k]
    ensures k < |a| && k < |b| ==> a[k] != b[k]
  {
    if a == [] || b == [] || a[0] != b[0] then 0
    else
      var k := Common(a[1..], b[1..]);
      assert a[..k + 1] == [a[0]] + a[1..][..k] && b[..k + 1] == [b[0]] + b[1..][..k];
      k + 1
  }

  /** The order of a dictionary, a prefix first: strcmp. */
  function Alphabetical(a: string, b: string): int {
    if a == "" || b == "" then CompareInts(|a|, |b|)
    else if a[0] < b[0] then -1
    else if a[0] > b[0] then 1
    else Alphabetical(a[1..], b[1..])
  }

  /** The first difference decides, and without one the length. */
  lemma {:induction false} AlphabeticalIs(a: string, b: string)
    ensures var k := Common(a, b);
            Alphabetical(a, b) == if k == |a| || k == |b| then CompareInts(|a|, |b|)
                                  else CompareInts(a[k] as int, b[k] as int)
  {
    if a != "" && b != "" && a[0] == b[0] {
      AlphabeticalIs(a[1..], b[1..]);
    }
  }

  lemma {:induction false} CharsAlphabetical(a: string, b: string)
    requires |a| == |b|
    ensures CompareChars(a, b) == Alphabetical(a, b)
  {
    if a != "" {
      CharsAlphabetical(a[1..], b[1..]);
    }
  }

  /** The longer of two segments also comes later in a dictionary. */
  predicate LengthsAgree(a: string, b: string) {
    var k := Common(a, b);
    |a| == |b| || k == |a| || k == |b| || (|a| < |b| <==> a[k] < b[k])
  }

  /** Comparing the lengths first is alphabetical exactly for these segments. */
  lemma TextIsAlphabetical(a: string, b: string)
    ensures CompareText(a, b) == Alphabetical(a, b) <==> LengthsAgree(a, b)
  {
    AlphabeticalIs(a, b);
    if |a| == |b| {
      CharsAlphabetical(a, b);
    }
  }

  /** Segments as the documentation orders them: two integers by value, all others
      alphabetically. */
  function Documented(a: string, b: string): int {
    if AllDigits(a) && AllDigits(b) then CompareInts(DigitsValue(a, 0), DigitsValue(b, 0)) else Alphabetical(a, b)
  }

  predicate AsDocumented(a: string, b: string) {
    (AllDigits(a) && AllDigits(b)) || LengthsAgree(a, b)
  }

  lemma SegmentsAsDocumented(a: string, b: string)
    requires Proper(a) && Proper(b)
    ensures CompareText(a, b) == Documented(a, b) <==> AsDocumented(a, b)
    ensures Documented(a, b) == 0 <==> a == b
  {
    SegmentOrder(a, b, b);
    if AllDigits(a) && AllDigits(b) {
      NumbersAgree(a, b);
    } else {
      TextIsAlphabetical(a, b);
      AlphabeticalIs(a, b);
      assert a[..|a|] == a && b[..|b|] == b;
    }
  }

  /** The rule's segments against the version's in the documented order. */
  function DocumentedLists(rs: seq<string>, vs: seq<string>): int {
    if rs == [] then 0
    else if vs == [] then 1
    else if Documented(rs[0], vs[0]) != 0 then Documented(rs[0], vs[0])
    else DocumentedLists(rs[1..], vs[1..])
  }

  lemma {:induction false} ListsAsDocumented(rs: seq<string>, vs: seq<string>)
    requires AllProper(rs) && AllProper(vs)
    ensures var k := Common(rs, vs);
            CompareLists(rs, vs) == DocumentedLists(rs, vs)
            <==> k == |rs| || k == |vs| || AsDocumented(rs[k], vs[k])
    ensures CompareLists(rs, vs) == 0 <==> DocumentedLists(rs, vs) == 0
  {
    hide Proper, AsDocumented, Documented, CompareText;
    if rs != [] && vs != [] {
      SegmentsAsDocumented(rs[0], vs[0]);
      SegmentOrder(rs[0], vs[0], vs[0]);
      if rs[0] == vs[0] {
        ListsAsDocumented(rs[1..], vs[1..]);
      }
    }
  }

  /** version_compare keeps the documented order exactly for those versions whose first
      different segments are integers or have lengths that agree with the alphabet.
      Whether the result is 0 never depends on that. */
  lemma ComparesAsDocumented(r: string, v: string)
    requires ProperVersion(r) && ProperVersion(v)
    ensures var rs, vs := Segments(r), Segments(v);
            var k := Common(rs, vs);
            Compare(r, v) == DocumentedLists(rs, vs) <==> k == |rs| || k == |vs| || AsDocumented(rs[k], vs[k])
    ensures Compare(r, v) == 0 <==> DocumentedLists(Segments(r), Segments(v)) == 0
  {
    hide Proper, Segments, Compare, CompareLists, DocumentedLists;
    CompareIsLexicographic(r, v);
    ListsAsDocumented(Segments(r), Segments(v));
  }

  /** "aa" comes before "b" in a dictionary, yet version_compare puts it behind. */
  lemma ShorterComesFirst()
    ensures Proper("b") && Proper("aa") && Alphabetical("b", "aa") == 1
    ensures Compare("b", "aa") == -1
  {
    assert !IsDigit("b"[0]) && !IsDigit("aa"[0]);
    assert FirstSegment("b") == "b" && FirstSegment("aa") == "aa";
    FirstCompared("b", "aa");
  }

  /** The order on whole versions: lexicographic, a proper prefix comes first. */
  predicate NotAfter(a: seq<string>, b: seq<string>) {
    a == [] || (b != [] && (CompareText(a[0], b[0]) < 0 || (a[0] == b[0] && NotAfter(a[1..], b[1..]))))
  }

  /** The greater the version, the smaller the rule looks beside it. */
  lemma {:induction false} CompareIsMonotone(rs: seq<string>, a: seq<string>, b: seq<string>)
    requires NotAfter(a, b)
    ensures CompareLists(rs, a) <= 0 ==> CompareLists(rs, b) <= 0
    ensures CompareLists(rs, a) < 0 ==> CompareLists(rs, b) < 0
  {
    if rs != [] && a != [] {
      SegmentOrder(rs[0], a[0], b[0]);
      SegmentOrder(a[0], b[0], rs[0]);
      SegmentOrder(rs[0], b[0], a[0]);
      if a[0] == b[0] {
        SegmentOrder(a[0], a[0], a[0]);
        CompareIsMonotone(rs[1..], a[1..], b[1..]);
      }
    }
  }

  // -------------------------------------------------------- version_matching

  /** Where a and b first stand side by side in s, or |s|. */
  function FindTwo(s: string, a: char, b: char): (k: nat)
    ensures k <= |s| && (k < |s| ==> k + 1 < |s|)
  {
    if |s| < 2 then |s|
    else if s[0] == a && s[1] == b then 0
    else
      var k := FindTwo(s[1..], a, b);
      k + 1
  }

  /** Which operators a rule contains, and where the first in the order of preference
      stands; None when there is none and the source reads an unset pointer. */
  datatype Rule = Rule(le: bool, ge: bool, neq: bool, lt: bool, eq: bool, gt: bool, at: nat, start: nat)

  function Operators(s: string): Rule {
    var le, ge, neq := FindTwo(s, '<', '='), FindTwo(s, '>', '='), FindTwo(s, '!', '=');
    var lt, eq, gt := Find(s, '<'), Find(s, '='), Find(s, '>');
    Rule(le < |s|, ge < |s|, neq < |s|, lt < |s|, eq < |s|, gt < |s|, 0, 0)
  }

  function ParseRule(s: string): (r: Option<Rule>)
    ensures r.Some? ==> r.value.at < r.value.start <= |s|
  {
    var ops := Operators(s);
    if ops.le then Some(ops.(at := FindTwo(s, '<', '='), start := FindTwo(s, '<', '=') + 2))
    else if ops.ge then Some(ops.(at := FindTwo(s, '>', '='), start := FindTwo(s, '>', '=') + 2))
    else if ops.neq then Some(ops.(at := FindTwo(s, '!', '='), start := FindTwo(s, '!', '=') + 2))
    else if ops.lt then Some(ops.(at := Find(s, '<'), start := Find(s, '<') + 1))
    else if ops.eq then Some(ops.(at := Find(s, '='), start := Find(s, '=') + 1))
    else if ops.gt then Some(ops.(at := Find(s, '>'), start := Find(s, '>') + 1))
    else None
  }

  predicate Rejects(r: Rule, ret: int) {
    if r.le || r.ge || r.neq then (r.le && ret < 0) || (r.ge && ret > 0) || (r.neq && ret == 0)
    else (r.lt && ret <= 0) || (r.eq && ret != 0) || (r.gt && ret >= 0)
  }

  datatype Component = Component(name: string, version: string)

  /** struct version: the main version and, unless the pointer is NULL, the versions of
      the components. */
  datatype Version = Version(version: string, components: Option<seq<Component>>)

  /** strncmp of the component part of a rule with a name is 0, and the name is skipped. */
  predicate Skips(id: string, c: Component) {
    id <= c.name
  }

  /** Rule r, the text of its version being text, lets a component pass. */
  predicate Passes(r: Rule, id: string, text: string, c: Component) {
    Skips(id, c) || !Rejects(r, Compare(text, c.version))
  }

  /** One rule against a version: whether it lets the version pass, or None when the
      pointer to the end of its component part is read without having been set. */
  function Outcome(rule: string, v: Version): Option<bool> {
    match ParseRule(rule)
    case None => None
    case Some(r) =>
      var text := rule[r.start..];
      if r.at == 0 then Some(!Rejects(r, Compare(text, v.version)))
      else Some(v.components == None || forall c <- v.components.value :: Passes(r, rule[..r.at], text, c))
  }

  /** An entry of the array of rules in front of NULL: a rule, or a pointer that was never
      set. */
  datatype Listed = Listed(rule: string) | Unlisted

  function OutcomeOf(l: Listed, v: Version): Option<bool> {
    match l
    case Listed(rule) => Outcome(rule, v)
    case Unlisted => None
  }

  /** Rules are tried in order until one refuses or cannot be read. */
  function Matching(rules: seq<Listed>, v: Version): Option<bool> {
    if rules == [] then Some(true)
    else if OutcomeOf(rules[0], v) == Some(true) then Matching(rules[1..], v)
    else OutcomeOf(rules[0], v)
  }

  /** Rules 0 .. k-1 let the version pass. */
  predicate PassedTo(rules: seq<Listed>, v: Version, k: nat) {
    k <= |rules| && forall i :: 0 <= i < k ==> OutcomeOf(rules[i], v) == Some(true)
  }

  /** The result is that of the first rule that does not let the version pass, or true. */
  lemma {:induction false} FirstDecides(rules: seq<Listed>, v: Version, k: nat)
    requires PassedTo(rules, v, k) && (k < |rules| ==> OutcomeOf(rules[k], v) != Some(true))
    ensures Matching(rules, v) == if k < |rules| then OutcomeOf(rules[k], v) else Some(true)
  {
    hide OutcomeOf;
    if k > 0 {
      FirstDecides(rules[1..], v, k - 1);
    }
  }

  lemma {:induction false} FirstNotPassing(rules: seq<Listed>, v: Version) returns (k: nat)
    ensures PassedTo(rules, v, k) && (k < |rules| ==> OutcomeOf(rules[k], v) != Some(true))
  {
    hide OutcomeOf;
    k := 0;
    if rules != [] && OutcomeOf(rules[0], v) == Some(true) {
      k := FirstNotPassing(rules[1..], v);
      k := k + 1;
    }
  }

  /** Whether an entry can be read at all. */
  predicate Readable(l: Listed) {
    l.Listed? && !NoOperator(l.rule)
  }

  /** A version matches exactly when every rule lets it pass, and an unset pointer is read
      exactly when the first rule that does not was never set or has no operator. */
  lemma MatchingMeans(rules: seq<Listed>, v: Version)
    ensures Matching(rules, v) == Some(true) <==> PassedTo(rules, v, |rules|)
    ensures Matching(rules, v) == None
       <==> exists k: nat :: k < |rules| && PassedTo(rules, v, k) && !Readable(rules[k])
  {
    var k := FirstNotPassing(rules, v);
    FirstDecides(rules, v, k);
    forall l: Listed ensures OutcomeOf(l, v) == None <==> !Readable(l) {
      if l.Listed? {
        OutcomeKnown(l.rule, v);
      }
    }
    hide OutcomeOf, Matching, Readable;
    forall m: nat | m < |rules| && PassedTo(rules, v, m) && !Readable(rules[m]) ensures m == k {}
  }

  /** version_matching. */
  method VersionMatching(v: Version, rules: Option<seq<Listed>>) returns (ok: Option<bool>)
    ensures ok == if rules == None then Some(true) else Matching(rules.value, v)
  {
    if rules == None {
      return Some(true);
    }
    hide Outcome;
    for i := 0 to |rules.value|
      invariant Matching(rules.value, v) == Matching(rules.value[i..], v)
    {
      assert rules.value[i..][1..] == rules.value[i + 1..];
      if rules.value[i].Unlisted? {
        return None;
      }
      var pass := OneRule(rules.value[i].rule, v);
      if pass != Some(true) {
        return pass;
      }
    }
    ok := Some(true);
  }

  /** The body of the loop over the rules. */
  method OneRule(rule: string, v: Version) returns (ok: Option<bool>)
    ensures ok == Outcome(rule, v)
  {
    hide Rejects, Compare, ParseRule;
    var parsed := ParseRule(rule);
    if parsed == None {
      return None;
    }
    var r := parsed.value;
    var text, id := rule[r.start..], rule[..r.at];
    if r.at == 0 {
      var ret := VersionCompare(text, v.version);
      return Some(!Rejects(r, ret));
    }
    if v.components == None {
      return Some(true);
    }
    for j := 0 to |v.components.value|
      invariant forall c <- v.components.value[..j] :: Passes(r, id, text, c)
    {
      var c := v.components.value[j];
      if !(id <= c.name) {
        var ret := VersionCompare(text, c.version);
        if Rejects(r, ret) {
          assert !Passes(r, id, text, c);
          return Some(false);
        }
      }
    }
    assert v.components.value[..|v.components.value|] == v.components.value;
    ok := Some(true);
  }

  datatype Op = Le | Ge | Ne | Lt | Eq | Gt

  function OpText(op: Op): string {
    match op
    case Le => "<="
    case Ge => ">="
    case Ne => "!="
    case Lt => "<"
    case Eq => "="
    case Gt => ">"
  }

  predicate NoOperator(s: string) {
    Without(s, '<') && Without(s, '>') && Without(s, '=')
  }

  lemma {:induction false} FindTwoNothing(s: string, a: char, b: char)
    requires Without(s, b)
    ensures FindTwo(s, a, b) == |s|
  {
    if |s| >= 2 {
      FindTwoNothing(s[1..], a, b);
    }
  }

  lemma {:induction false} FindMeets(s: string, c: char)
    ensures Find(s, c) == |s| <==> Without(s, c)
  {
    if s != "" && s[0] != c {
      FindMeets(s[1..], c);
      assert s == [s[0]] + s[1..];
    }
  }

  /** The rules on which the unset pointer is read. */
  lemma OutcomeKnown(rule: string, v: Version)
    ensures Outcome(rule, v) == None <==> NoOperator(rule)
  {
    FindMeets(rule, '<');
    FindMeets(rule, '>');
    FindMeets(rule, '=');
    if Without(rule, '=') {
      FindTwoNothing(rule, '<', '=');
      FindTwoNothing(rule, '>', '=');
      FindTwoNothing(rule, '!', '=');
    }
  }

  lemma FindAfterOne(c: char, text: string, x: char)
    requires Without(text, x)
    ensures Find([c] + text, x) == if c == x then 0 else |text| + 1
  {
    assert ([c] + text)[1..] == text;
    FindNothing(text, x);
  }

  lemma FindTwoAfterOne(c: char, text: string, x: char)
    requires Without(text, '=')
    ensures FindTwo([c] + text, x, '=') == |text| + 1
  {
    assert ([c] + text)[1..] == text;
    FindTwoNothing(text, x, '=');
  }

  lemma FindTwoAfterTwo(c: char, text: string, x: char)
    requires Without(text, '=') && x != '='
    ensures FindTwo([c, '='] + text, x, '=') == if c == x then 0 else |text| + 2
  {
    assert ([c, '='] + text)[1..] == ['='] + text;
    FindTwoAfterOne('=', text, x);
  }

  lemma FindAfterTwo(c: char, text: string, x: char)
    requires Without(text, x)
    ensures Find([c, '='] + text, x) == if c == x then 0 else if x == '=' then 1 else |text| + 2
  {
    assert ([c, '='] + text)[1..] == ['='] + text;
    FindAfterOne('=', text, x);
  }

  /** How a rule that starts with its only operator is understood. */
  lemma RuleParsed(op: Op, text: string)
    requires NoOperator(text)
    ensures var r := ParseRule(OpText(op) + text);
            && r.Some? && r.value.at == 0 && r.value.start == |OpText(op)|
            && forall ret :: Rejects(r.value, ret) == Refuses(op, ret)
  {
    var o := OpText(op);
    var c := o[0];
    if |o| == 1 {
      assert o + text == [c] + text;
      FindTwoAfterOne(c, text, '<');
      FindTwoAfterOne(c, text, '>');
      FindTwoAfterOne(c, text, '!');
      FindAfterOne(c, text, '<');
      FindAfterOne(c, text, '=');
      FindAfterOne(c, text, '>');
    } else {
      assert o + text == [c, '='] + text;
      FindTwoAfterTwo(c, text, '<');
      FindTwoAfterTwo(c, text, '>');
      FindTwoAfterTwo(c, text, '!');
      FindAfterTwo(c, text, '<');
      FindAfterTwo(c, text, '=');
      FindAfterTwo(c, text, '>');
    }
    hide Find, FindTwo;
  }

  /** When each operator refuses a version, by the comparison of the rule with it. */
  predicate Refuses(op: Op, ret: int) {
    match op
    case Le => ret < 0
    case Ge => ret > 0
    case Ne => ret == 0
    case Lt => ret <= 0
    case Eq => ret != 0
    case Gt => ret >= 0
  }

  /** Rules on proper versions: `=` accepts the versions that start with the rule's
      segments, `!=` all others, and the rest go by the order of the rule and the version
      cut to its length. */
  lemma RuleMeaning(op: Op, text: string, v: Version)
    requires NoOperator(text) && ProperVersion(text) && ProperVersion(v.version)
    ensures var rs, vs := Segments(text), Segments(v.version);
            Outcome(OpText(op) + text, v)
            == Some(match op
                    case Eq => rs <= vs
                    case Ne => !(rs <= vs)
                    case Ge => CompareLists(rs, vs) <= 0
                    case Gt => CompareLists(rs, vs) < 0
                    case Le => CompareLists(rs, vs) >= 0
                    case Lt => CompareLists(rs, vs) > 0)
  {
    RuleParsed(op, text);
    assert (OpText(op) + text)[|OpText(op)|..] == text;
    CompareIsLexicographic(text, v.version);
    ZeroMeansPrefix(Segments(text), Segments(v.version));
    hide Find, ParseRule, Rejects, Segments, Compare, CompareLists;
  }

  /** `>=` and `>` accept every version from some point of the order on, `<=` and `<` every
      version up to some point. */
  lemma AcceptedSetsClosed(op: Op, text: string, a: Version, b: Version)
    requires NoOperator(text) && ProperVersion(text) && ProperVersion(a.version) && ProperVersion(b.version)
    requires NotAfter(Segments(a.version), Segments(b.version))
    ensures var rule := OpText(op) + text;
            && ((op == Ge || op == Gt) && Outcome(rule, a) == Some(true) ==> Outcome(rule, b) == Some(true))
            && ((op == Le || op == Lt) && Outcome(rule, b) == Some(true) ==> Outcome(rule, a) == Some(true))
  {
    RuleMeaning(op, text, a);
    RuleMeaning(op, text, b);
    CompareIsMonotone(Segments(text), Segments(a.version), Segments(b.version));
    hide Outcome, Segments, CompareLists;
  }

  // --------------------------------------------------------- component rules

  lemma {:induction false} FindBehind(id: string, t: string, c: char)
    requires Without(id, c)
    ensures Find(id + t, c) == |id| + Find(t, c)
  {
    if id == "" {
      assert id + t == t;
    } else {
      assert (id + t)[1..] == id[1..] + t;
      FindBehind(id[1..], t, c);
    }
  }

  lemma {:induction false} FindTwoBehind(id: string, t: string, a: char, b: char)
    requires Without(id, a)
    ensures FindTwo(id + t, a, b) == |id| + FindTwo(t, a, b)
  {
    if id == "" {
      assert id + t == t;
    } else {
      assert (id + t)[1..] == id[1..] + t;
      FindTwoBehind(id[1..], t, a, b);
      assert |id + t| >= 2 || FindTwo(t, a, b) == |t|;
    }
  }

  /** What names a component in a rule. */
  predicate ComponentPart(id: string) {
    id != "" && NoOperator(id) && Without(id, '!')
  }

  lemma OperatorsBehind(id: string, o: string)
    requires ComponentPart(id)
    ensures Operators(id + o) == Operators(o)
    ensures FindTwo(id + o, '<', '=') == |id| + FindTwo(o, '<', '=')
    ensures FindTwo(id + o, '>', '=') == |id| + FindTwo(o, '>', '=')
    ensures FindTwo(id + o, '!', '=') == |id| + FindTwo(o, '!', '=')
    ensures Find(id + o, '<') == |id| + Find(o, '<')
    ensures Find(id + o, '=') == |id| + Find(o, '=')
    ensures Find(id + o, '>') == |id| + Find(o, '>')
  {
    FindTwoBehind(id, o, '<', '=');
    FindTwoBehind(id, o, '>', '=');
    FindTwoBehind(id, o, '!', '=');
    FindBehind(id, o, '<');
    FindBehind(id, o, '=');
    FindBehind(id, o, '>');
    hide Find, FindTwo;
    assert |id + o| == |id| + |o|;
  }

  /** What stands before the operators does not change how they are understood. */
  lemma ParsedBehind(id: string, o: string)
    requires ComponentPart(id)
    ensures ParseRule(id + o).Some? == ParseRule(o).Some?
    ensures ParseRule(o).Some? ==>
              var r := ParseRule(o).value;
              ParseRule(id + o) == Some(r.(at := |id| + r.at, start := |id| + r.start))
  {
    hide Find, FindTwo, Operators, ComponentPart;
    OperatorsBehind(id, o);
    var ops := Operators(o);
    if ops.le {
    } else if ops.ge {
    } else if ops.neq {
    } else if ops.lt {
    } else if ops.eq {
    }
  }

  lemma ComponentRuleParsed(id: string, op: Op, text: string)
    requires ComponentPart(id) && NoOperator(text)
    ensures var r := ParseRule(id + (OpText(op) + text));
            && r.Some? && r.value.at == |id| && r.value.start == |id| + |OpText(op)|
            && forall ret :: Rejects(r.value, ret) == Refuses(op, ret)
  {
    RuleParsed(op, text);
    ParsedBehind(id, OpText(op) + text);
    hide ParseRule, Refuses, OpText;
    var r, r' := ParseRule(OpText(op) + text).value, ParseRule(id + (OpText(op) + text)).value;
    forall ret ensures Rejects(r', ret) == Refuses(op, ret) {
      assert Rejects(r', ret) == Rejects(r, ret);
    }
  }

  /** A rule about a component is checked against every component whose name does not
      start with the name in the rule. */
  lemma ComponentRule(id: string, op: Op, text: string, main: string, cs: seq<Component>)
    requires ComponentPart(id) && NoOperator(text)
    ensures Outcome(id + (OpText(op) + text), Version(main, Some(cs)))
         == Some(forall c <- cs :: Skips(id, c) || !Refuses(op, Compare(text, c.version)))
  {
    var rule := id + (OpText(op) + text);
    ComponentRuleParsed(id, op, text);
    var r := ParseRule(rule).value;
    assert rule[r.start..] == text && rule[..r.at] == id;
    hide ParseRule, Rejects, Refuses, Compare, Skips, NoOperator, ComponentPart, OpText;
    assert forall c <- cs :: Passes(r, id, text, c) == (Skips(id, c) || !Refuses(op, Compare(text, c.version)));
  }

  /** As documented, such a rule is about the component it names. */
  predicate DocumentedPasses(id: string, op: Op, text: string, cs: seq<Component>) {
    forall c <- cs :: c.name == id ==> !Refuses(op, Compare(text, c.version))
  }

  function Names(cs: seq<Component>): (r: seq<string>)
    ensures |r| == |cs| && forall i :: 0 <= i < |cs| ==> r[i] == cs[i].name
  {
    seq(|cs|, i requires 0 <= i < |cs| => cs[i].name)
  }

  /** Rules about component id do what is documented for a plugin with components of
      these names, whatever their versions are. */
  ghost predicate ComponentRulesWork(id: string, names: seq<string>) {
    forall op: Op, text: string, main: string, cs: seq<Component> ::
      NoOperator(text) && Names(cs) == names ==>
        Outcome(id + (OpText(op) + text), Version(main, Some(cs))) == Some(DocumentedPasses(id, op, text, cs))
  }

  lemma NothingToCheck(id: string, op: Op, text: string, main: string, cs: seq<Component>)
    requires ComponentPart(id) && NoOperator(text) && forall n <- Names(cs) :: id < n
    ensures Outcome(id + (OpText(op) + text), Version(main, Some(cs))) == Some(DocumentedPasses(id, op, text, cs))
  {
    ComponentRule(id, op, text, main, cs);
    hide Outcome, Compare, Refuses;
    forall c | c in cs ensures Skips(id, c) && c.name != id {
      assert c.name in Names(cs) by {
        var i :| 0 <= i < |cs| && cs[i] == c;
        assert Names(cs)[i] == c.name;
      }
    }
  }

  /** A plugin with components of the given names that the rule "=1" about id misjudges. */
  function Misjudged(id: string, names: seq<string>): (cs: seq<Component>)
    ensures Names(cs) == names
  {
    seq(|names|, i requires 0 <= i < |names| =>
      Component(names[i], if id in names && names[i] != id then "1" else "2"))
  }

  /** The named component has the wrong version, and the others are looked at. */
  lemma WronglyPassed(id: string, names: seq<string>)
    requires ComponentPart(id) && id in names
    ensures var cs := Misjudged(id, names);
            && Outcome(id + (OpText(Eq) + "1"), Version("", Some(cs))) == Some(true)
            && !DocumentedPasses(id, Eq, "1", cs)
  {
    var cs := Misjudged(id, names);
    ComponentRule(id, Eq, "1", "", cs);
    OneAndTwo();
    hide Outcome, Compare, ComponentPart, Refuses;
    var i :| 0 <= i < |names| && names[i] == id;
    assert cs[i].name == id && cs[i].version == "2" && cs[i] in cs;
    forall j | 0 <= j < |cs| ensures Skips(id, cs[j]) || !Refuses(Eq, Compare("1", cs[j].version)) {
      assert if names[j] == id then cs[j].name == id else cs[j].version == "1";
    }
  }

  /** Nothing carries the name, and some other component has the wrong version. */
  lemma WronglyRefused(id: string, names: seq<string>, k: nat)
    requires ComponentPart(id) && id !in names && k < |names| && !(id < names[k])
    ensures var cs := Misjudged(id, names);
            && Outcome(id + (OpText(Eq) + "1"), Version("", Some(cs))) == Some(false)
            && DocumentedPasses(id, Eq, "1", cs)
  {
    var cs := Misjudged(id, names);
    ComponentRule(id, Eq, "1", "", cs);
    OneAndTwo();
    hide Outcome, Compare, ComponentPart, Refuses;
    assert id != names[k];
    assert cs[k].version == "2" && !Skips(id, cs[k]) && cs[k] in cs;
    assert forall i :: 0 <= i < |cs| ==> cs[i].name == names[i] && names[i] != id;
  }

  /** The source skips the components it should check: component rules work only for
      plugins on which they check nothing at all, because the name of every component is
      longer than the rule's and starts with it. */
  lemma ComponentRulesWorkExactly(id: string, names: seq<string>)
    requires ComponentPart(id)
    ensures ComponentRulesWork(id, names) <==> forall n <- names :: id < n
  {
    hide Outcome, DocumentedPasses, ComponentPart;
    if forall n <- names :: id < n {
      forall op: Op, text: string, main: string, cs: seq<Component> | NoOperator(text) && Names(cs) == names
        ensures Outcome(id + (OpText(op) + text), Version(main, Some(cs))) == Some(DocumentedPasses(id, op, text, cs))
      {
        NothingToCheck(id, op, text, main, cs);
      }
    } else {
      var k :| 0 <= k < |names| && !(id < names[k]);
      var cs := Misjudged(id, names);
      assert NoOperator("1") && Names(cs) == names;
      if id in names {
        WronglyPassed(id, names);
      } else {
        WronglyRefused(id, names, k);
      }
    }
  }

  lemma OneAndTwo()
    ensures !Refuses(Eq, Compare("1", "1")) && Refuses(Eq, Compare("1", "2"))
  {
    assert FirstSegment("1") == "1" && FirstSegment("2") == "2";
    FirstCompared("1", "1");
    FirstCompared("1", "2");
  }

  // ------------------------------------------------- rules as they are created

  /** What the array that create_version_rules makes of a text holds in front of NULL. */
  function Created(text: string): (r: seq<Listed>)
    ensures |r| == |Pieces(text, '@')| + 1 && r[|r| - 1] == Unlisted
    ensures forall i :: 0 <= i < |r| - 1 ==> r[i] == Listed(Pieces(text, '@')[i])
  {
    var ps := Pieces(text, '@');
    seq(|ps|, i requires 0 <= i < |ps| => Listed(ps[i])) + [Unlisted]
  }

  /** The entries of the array in the buffer are these. */
  lemma CreatedAsRead(b: seq<char>, es: seq<Entry>, text: string, limit: nat, i: nat)
    requires Rules(b, es, text, limit) && i < |es|
    ensures es[i] == Null <==> i == |Created(text)|
    ensures i < |Created(text)| ==>
              match Created(text)[i]
              case Listed(rule) => Piece(b, es[i], rule, limit)
              case Unlisted => es[i] == Unset
  {
    hide Reads, Pieces;
  }

  /** The rules of a link never accept a version: when all of them let it pass, the unset
      entry behind them is read. They refuse it exactly when the first rule that does not
      let it pass can be read. */
  lemma CreatedNeverAccept(text: string, v: Version)
    ensures Matching(Created(text), v) != Some(true)
    ensures Matching(Created(text), v) == Some(false)
       <==> exists k: nat :: k < |Pieces(text, '@')| && PassedTo(Created(text), v, k)
                             && Outcome(Pieces(text, '@')[k], v) == Some(false)
  {
    var rules := Created(text);
    var k := FirstNotPassing(rules, v);
    FirstDecides(rules, v, k);
    hide Matching, Created, Outcome;
    assert OutcomeOf(rules[|rules| - 1], v) == None;
    assert forall i :: 0 <= i < |rules| - 1 ==> OutcomeOf(rules[i], v) == Outcome(Pieces(text, '@')[i], v);
    hide OutcomeOf;
    forall m: nat | m < |Pieces(text, '@')| && PassedTo(rules, v, m) && Outcome(Pieces(text, '@')[m], v) == Some(false)
      ensures m == k
    {}
  }

  /** The rule "=1" lets version 1 pass, but not the array made of it. */
  lemma EqualVersionNotAccepted()
    ensures var v := Version("1", None);
            Outcome("=1", v) == Some(true) && Matching(Created("=1"), v) == None
  {
    var v := Version("1", None);
    assert OpText(Eq) + "1" == "=1" && "=1"[1..] == "1";
    RuleParsed(Eq, "1");
    OneAndTwo();
    assert Outcome("=1", v) == Some(true);
    FindMeets("=1", '@');
    assert Pieces("=1", '@') == ["=1"] by {
      assert "=1"[..2] == "=1";
    }
    CreatedNeverAccept("=1", v);
  }
}
