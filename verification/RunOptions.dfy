/** Plugin options: the iterator over `key=value` pairs, the integer values, and a table of
    defaults overridden pair by pair. */
module RunOptions {
  import opened Basics
  import opened RunCombo

  type Pair = (string, string)

  /** Where the first c from position i on stands, or |str|. */
  function Next(str: string, i: nat, c: char): (k: nat)
    requires i <= |str|
    ensures i <= k <= |str|
    decreases |str| - i
  {
    if i == |str| || str[i] == c then i else Next(str, i + 1, c)
  }

  /** The pairs the iterator yields from position i on: a key ends at the first `=`, its
      value at the next `:`. Text without an `=` ends the iteration. */
  function Pairs(str: string, i: nat): seq<Pair>
    requires i <= |str|
    decreases |str| - i
  {
    var e := Next(str, i, '=');
    if e == |str| then []
    else
      var c := Next(str, e + 1, ':');
      [(str[i..e], str[e + 1..c])] + (if c < |str| then Pairs(str, c + 1) else [])
  }

  function PrintPair(p: Pair): string {
    p.0 + "=" + p.1
  }

  function PrintPairs(ps: seq<Pair>): string {
    if ps == [] then ""
    else if |ps| == 1 then PrintPair(ps[0])
    else PrintPair(ps[0]) + ":" + PrintPairs(ps[1..])
  }

  lemma {:induction false} NextIs(str: string, i: nat, c: char, k: nat)
    requires i <= k <= |str| && (k < |str| ==> str[k] == c) && forall j :: i <= j < k ==> str[j] != c
    ensures Next(str, i, c) == k
    decreases k - i
  {
    if i < k {
      NextIs(str, i + 1, c, k);
    }
  }

  /** A printed pair in the middle of a string. */
  lemma PairThere(str: string, i: nat, p: Pair, after: string)
    requires Without(p.0, '=') && Without(p.1, ':') && (after == "" || after[0] == ':')
    requires i <= |str| && str[i..] == PrintPair(p) + after
    ensures var c := i + |p.0| + 1 + |p.1|;
            && c <= |str| && str[c..] == after
            && Pairs(str, i) == [p] + (if c < |str| then Pairs(str, c + 1) else [])
  {
    hide Next, PrintPair, Without, Pairs;
    var e := i + |p.0|;
    var c := e + 1 + |p.1|;
    PrintedSlices(str, i, p, after);
    NextAfterPart(str, i, e, p.0, '=');
    assert c < |str| ==> str[c] == str[c..][0];
    NextAfterPart(str, e + 1, c, p.1, ':');
    PairsUnfold(str, i, e, c, p);
  }

  lemma PairsUnfold(str: string, i: nat, e: nat, c: nat, p: Pair)
    requires i <= |str| && e == Next(str, i, '=') < |str| && c == Next(str, e + 1, ':')
    requires str[i..e] == p.0 && str[e + 1..c] == p.1
    ensures Pairs(str, i) == [p] + (if c < |str| then Pairs(str, c + 1) else [])
  {
    hide Next;
    assert p == (p.0, p.1);
  }

  lemma NextAfterPart(str: string, i: nat, k: nat, s: string, c: char)
    requires i <= k <= |str| && str[i..k] == s && Without(s, c) && (k < |str| ==> str[k] == c)
    ensures Next(str, i, c) == k
  {
    forall j | i <= j < k ensures str[j] != c {
      assert str[j] == s[j - i];
    }
    NextIs(str, i, c, k);
  }

  lemma PrintedSlices(str: string, i: nat, p: Pair, after: string)
    requires i <= |str| && str[i..] == PrintPair(p) + after
    ensures var e := i + |p.0|;
            var c := e + 1 + |p.1|;
            c <= |str| && str[i..e] == p.0 && str[e] == '=' && str[e + 1..c] == p.1 && str[c..] == after
  {
    var e, t := |p.0|, str[i..];
    var c := e + 1 + |p.1|;
    assert str[i..i + e] == t[..e] == p.0;
    assert str[i + e] == t[e];
    assert str[i + e + 1..i + c] == t[e + 1..c] == p.1;
    assert str[i + c..] == t[c..] == after;
  }

  lemma {:induction false} PrintedThere(str: string, i: nat, ps: seq<Pair>)
    requires forall k :: 0 <= k < |ps| ==> Without(ps[k].0, '=') && Without(ps[k].1, ':')
    requires i <= |str| && str[i..] == PrintPairs(ps)
    ensures Pairs(str, i) == ps
    decreases |ps|
  {
    hide Next, PrintPair, Without, Pairs;
    if ps == [] {
      EndThere(str, i);
    } else if |ps| == 1 {
      assert PrintPair(ps[0]) + "" == PrintPair(ps[0]);
      PairThere(str, i, ps[0], "");
    } else {
      var after := ":" + PrintPairs(ps[1..]);
      assert str[i..] == PrintPair(ps[0]) + after;
      PairThere(str, i, ps[0], after);
      var c := i + |ps[0].0| + 1 + |ps[0].1|;
      assert str[c + 1..] == str[c..][1..] == after[1..] == PrintPairs(ps[1..]);
      PrintedThere(str, c + 1, ps[1..]);
      assert ps == [ps[0]] + ps[1..];
    }
  }

  lemma EndThere(str: string, i: nat)
    requires i <= |str| && str[i..] == ""
    ensures Pairs(str, i) == []
  {}

  /** Printing options and iterating over them gives back the same pairs. */
  lemma PairsRoundTrip(ps: seq<Pair>)
    requires forall i :: 0 <= i < |ps| ==> Without(ps[i].0, '=') && Without(ps[i].1, ':')
    ensures Pairs(PrintPairs(ps), 0) == ps
  {
    PrintedThere(PrintPairs(ps), 0, ps);
  }

  /** Keys and values that fit into a link of a run combination. */
  predicate FitsLink(p: Pair) {
    && Without(p.0, '=') && Without(p.0, '@') && Without(p.0, ';')
    && Without(p.1, ':') && Without(p.1, '@') && Without(p.1, ';')
  }

  lemma {:induction false} PrintedWithout(ps: seq<Pair>, c: char)
    requires c != '=' && c != ':'
    requires forall i :: 0 <= i < |ps| ==> Without(ps[i].0, c) && Without(ps[i].1, c)
    ensures Without(PrintPairs(ps), c)
  {
    if ps != [] {
      PrintedWithout(ps[1..], c);
      WithoutInJoin(ps[0].0, "=", c);
      WithoutInJoin(ps[0].0 + "=", ps[0].1, c);
      WithoutInJoin(PrintPair(ps[0]), ":", c);
      WithoutInJoin(PrintPair(ps[0]) + ":", PrintPairs(ps[1..]), c);
    }
  }

  /** A link with printed options can be written down in a combination, and parsing the
      options that come back gives the same pairs. */
  lemma PrintedOptionsFit(name: string, ps: seq<Pair>)
    requires Without(name, '@') && Without(name, ':') && Without(name, ';')
    requires ps != [] && forall i :: 0 <= i < |ps| ==> FitsLink(ps[i])
    ensures var l := Link(name, None, Some(PrintPairs(ps)));
            Plain(l) && RoundTrips([l]) && Pairs(l.options.value, 0) == ps
  {
    var l := Link(name, None, Some(PrintPairs(ps)));
    PrintedWithout(ps, '@');
    PrintedWithout(ps, ';');
    PairsRoundTrip(ps);
    hide PrintPairs, Pairs, Without, ParseCombo, RoundTrips;
    PrintedSomething(ps);
    LastRoundTrip(l);
    assert !PrintsNothing(l) by {
      PrintedLink(l);
    }
  }

  lemma PrintedSomething(ps: seq<Pair>)
    requires ps != []
    ensures PrintPairs(ps) != ""
  {}

  // ---------------------------------------------------------------- integers

  const INT64_MIN: int := -0x8000_0000_0000_0000
  const INT64_MAX: int := 0x7fff_ffff_ffff_ffff

  predicate IsDigit(c: char) {
    '0' <= c <= '9'
  }

  predicate IsBlank(c: char) {
    c == ' ' || 9 as char <= c <= 13 as char
  }

  function DigitsValue(s: string, acc: int): int {
    if s == "" || !IsDigit(s[0]) then acc else DigitsValue(s[1..], 10 * acc + (s[0] as int - '0' as int))
  }

  function Clamp(v: int): int {
    if v < INT64_MIN then INT64_MIN else if v > INT64_MAX then INT64_MAX else v
  }

  /** strtoll to base 10: blanks, a sign, digits; too large a number becomes the nearest
      limit. */
  function StrToLL(s: string): int {
    if s == "" then 0
    else if IsBlank(s[0]) then StrToLL(s[1..])
    else if s[0] == '-' then Clamp(-DigitsValue(s[1..], 0))
    else if s[0] == '+' then Clamp(DigitsValue(s[1..], 0))
    else Clamp(DigitsValue(s, 0))
  }

  /** option_parse_int: only the first 126 characters count. */
  function ParseInt(s: string): int {
    StrToLL(if |s| >= 126 then s[..126] else s)
  }

  /** The conversion to int32_t. */
  function ToInt32(v: int): int {
    (v + 0x8000_0000) % 0x1_0000_0000 - 0x8000_0000
  }

  function PrintNat(n: nat): (s: string)
    ensures s != "" && IsDigit(s[0]) && forall i :: 0 <= i < |s| ==> IsDigit(s[i])
  {
    if n < 10 then [(n + '0' as int) as char]
    else PrintNat(n / 10) + [(n % 10 + '0' as int) as char]
  }

  function PrintInt(v: int): string {
    if v < 0 then "-" + PrintNat(-v) else PrintNat(v)
  }

  lemma {:induction false} DigitsJoin(s: string, t: string, acc: int)
    requires forall i :: 0 <= i < |s| ==> IsDigit(s[i])
    ensures DigitsValue(s + t, acc) == DigitsValue(t, DigitsValue(s, acc))
    decreases |s|
  {
    if s == "" {
      assert s + t == t;
    } else {
      assert (s + t)[1..] == s[1..] + t;
      DigitsJoin(s[1..], t, 10 * acc + (s[0] as int - '0' as int));
    }
  }

  lemma {:induction false} PrintedDigits(n: nat)
    ensures DigitsValue(PrintNat(n), 0) == n
  {
    if n >= 10 {
      PrintedDigits(n / 10);
      DigitsJoin(PrintNat(n / 10), [(n % 10 + '0' as int) as char], 0);
    }
  }

  lemma {:induction false} PrintedLength(n: nat, k: nat)
    requires n < PowTen(k) && k > 0
    ensures |PrintNat(n)| <= k
  {
    if n >= 10 {
      PrintedLength(n / 10, k - 1);
    }
  }

  function PowTen(k: nat): nat {
    if k == 0 then 1 else 10 * PowTen(k - 1)
  }

  lemma TenToTwenty()
    ensures PowTen(20) == 100_000_000_000_000_000_000
  {
    assert PowTen(5) == 100_000 by {
      assert PowTen(2) == 100;
    }
    assert PowTen(10) == 10_000_000_000 by {
      assert PowTen(7) == 10_000_000;
    }
    assert PowTen(15) == 1_000_000_000_000_000 by {
      assert PowTen(12) == 1_000_000_000_000;
    }
    assert PowTen(17) == 100_000_000_000_000_000;
  }

  /** Decimal values of int64_t are restored exactly, those of int32_t too. */
  lemma IntRoundTrip(v: int)
    requires INT64_MIN <= v <= INT64_MAX
    ensures ParseInt(PrintInt(v)) == v
    ensures -0x8000_0000 <= v < 0x8000_0000 ==> ToInt32(ParseInt(PrintInt(v))) == v
  {
    var n := if v < 0 then -v else v;
    PrintedDigits(n);
    TenToTwenty();
    PrintedLength(n, 20);
    var s := PrintInt(v);
    if v < 0 {
      assert s[1..] == PrintNat(n);
    }
  }

  // ----------------------------------------------------- what a text says

  /** A text as strtoll sees it. */
  datatype Numeral = Numeral(blanks: string, sign: string, digits: string, rest: string)

  function Written(n: Numeral): string {
    n.blanks + (n.sign + (n.digits + n.rest))
  }

  /** Space, tabs, line feed, form feed and carriage return. */
  const BLANKS: string := " \t\n\r" + [11 as char, 12 as char]

  predicate IsNumeral(n: Numeral) {
    && (forall i :: 0 <= i < |n.blanks| ==> n.blanks[i] in BLANKS)
    && (n.sign == "" || n.sign == "+" || n.sign == "-")
    && (forall i :: 0 <= i < |n.digits| ==> IsDigit(n.digits[i]))
    && (n.rest == "" || !IsDigit(n.rest[0]))
    && (n.sign == "" && n.digits == "" && n.rest != "" ==>
          n.rest[0] !in BLANKS && n.rest[0] != '+' && n.rest[0] != '-')
  }

  lemma BlankIs(c: char)
    ensures IsBlank(c) <==> c in BLANKS
  {
    var d := " \t\n\r";
    assert d[0] == ' ' && d[1] == 9 as char && d[2] == 10 as char && d[3] == 13 as char;
    assert BLANKS == d + [11 as char, 12 as char];
    assert BLANKS[4] == 11 as char && BLANKS[5] == 12 as char;
    if IsBlank(c) {
      assert c == BLANKS[0] || c == BLANKS[1] || c == BLANKS[2] || c == BLANKS[3] || c == BLANKS[4] || c == BLANKS[5];
    }
  }

  /** Decimal digits by their places. */
  function Positional(s: string): int {
    if s == "" then 0 else 10 * Positional(s[..|s| - 1]) + (s[|s| - 1] as int - '0' as int)
  }

  function ValueOf(n: Numeral): int {
    if n.sign == "-" then -Positional(n.digits) else Positional(n.digits)
  }

  lemma {:induction false} DigitsArePlaces(s: string)
    requires forall i :: 0 <= i < |s| ==> IsDigit(s[i])
    ensures DigitsValue(s, 0) == Positional(s)
  {
    if s != "" {
      var front, last := s[..|s| - 1], [s[|s| - 1]];
      DigitsArePlaces(front);
      DigitsJoin(front, last, 0);
      assert front + last == s;
      assert DigitsValue(last, Positional(front)) == 10 * Positional(front) + (s[|s| - 1] as int - '0' as int) by {
        assert last[1..] == "";
      }
    }
  }

  lemma DigitsThenRest(digits: string, rest: string)
    requires forall i :: 0 <= i < |digits| ==> IsDigit(digits[i])
    requires rest == "" || !IsDigit(rest[0])
    ensures DigitsValue(digits + rest, 0) == Positional(digits)
  {
    DigitsJoin(digits, rest, 0);
    DigitsArePlaces(digits);
  }

  /** v, or the nearest limit of int64_t. */
  predicate Nearest(v: int, r: int) {
    && INT64_MIN <= r <= INT64_MAX
    && (INT64_MIN <= v <= INT64_MAX ==> r == v)
    && (v > INT64_MAX ==> r == INT64_MAX) && (v < INT64_MIN ==> r == INT64_MIN)
  }

  lemma ClampIsNearest(v: int)
    ensures Nearest(v, Clamp(v))
  {}

  lemma ReadSigned(sign: string, s: string)
    requires sign == "+" || sign == "-"
    ensures StrToLL(sign + s) == Clamp(if sign == "-" then -DigitsValue(s, 0) else DigitsValue(s, 0))
  {
    assert (sign + s)[1..] == s && (sign + s)[0] == sign[0];
    hide DigitsValue, Clamp;
  }

  lemma ReadUnsigned(s: string)
    requires s != "" ==> !IsBlank(s[0]) && s[0] != '-' && s[0] != '+'
    ensures StrToLL(s) == Clamp(DigitsValue(s, 0))
  {}

  lemma SignedDigits(n: Numeral)
    requires IsNumeral(n) && n.blanks == ""
    ensures Nearest(ValueOf(n), StrToLL(Written(n)))
  {
    var s := n.digits + n.rest;
    assert Written(n) == n.sign + s;
    DigitsThenRest(n.digits, n.rest);
    ClampIsNearest(ValueOf(n));
    if n.sign != "" {
      ReadSigned(n.sign, s);
    } else {
      assert n.sign + s == s;
      if s != "" {
        BlankIs(s[0]);
        assert s[0] == if n.digits != "" then n.digits[0] else n.rest[0];
      }
      hide BLANKS;
      ReadUnsigned(s);
    }
    hide DigitsValue, Positional, StrToLL, Clamp, Nearest;
  }

  lemma {:induction false} NumeralRead(n: Numeral)
    requires IsNumeral(n)
    ensures Nearest(ValueOf(n), StrToLL(Written(n)))
    decreases |n.blanks|
  {
    if n.blanks == "" {
      SignedDigits(n);
    } else {
      var m := n.(blanks := n.blanks[1..]);
      BlankIs(n.blanks[0]);
      NumeralRead(m);
      assert Written(n)[1..] == Written(m) && Written(n)[0] == n.blanks[0];
    }
  }

  /** Every text can be read like that. */
  lemma {:induction false} NumeralOf(s: string) returns (n: Numeral)
    ensures IsNumeral(n) && Written(n) == s
  {
    if s != "" {
      BlankIs(s[0]);
    }
    if s != "" && IsBlank(s[0]) {
      var m := NumeralOf(s[1..]);
      n := m.(blanks := [s[0]] + m.blanks);
      assert Written(n) == [s[0]] + Written(m);
    } else {
      var sign := if s != "" && (s[0] == '+' || s[0] == '-') then s[..1] else "";
      var digits, rest := SplitDigits(s[|sign|..]);
      n := Numeral("", sign, digits, rest);
      assert Written(n) == sign + s[|sign|..] == s;
    }
  }

  lemma {:induction false} SplitDigits(s: string) returns (digits: string, rest: string)
    ensures s == digits + rest && forall i :: 0 <= i < |digits| ==> IsDigit(digits[i])
    ensures rest == "" || !IsDigit(rest[0])
  {
    if s == "" || !IsDigit(s[0]) {
      digits, rest := "", s;
    } else {
      digits, rest := SplitDigits(s[1..]);
      digits := [s[0]] + digits;
    }
  }

  /** r is what the first 126 characters of the text say, as an int64_t. */
  ghost predicate Says(text: string, r: int) {
    var start := if |text| >= 126 then text[..126] else text;
    exists n: Numeral :: IsNumeral(n) && Written(n) == start && Nearest(ValueOf(n), r)
  }

  /** option_parse_int returns what the text says; nothing else would be that. */
  lemma ParseIntSays(text: string, r: int)
    ensures Says(text, r) <==> r == ParseInt(text)
  {
    var s := if |text| >= 126 then text[..126] else text;
    hide Written, IsNumeral, StrToLL, ValueOf;
    if Says(text, r) {
      var n :| IsNumeral(n) && Written(n) == s && Nearest(ValueOf(n), r);
      NumeralRead(n);
    }
    var n := NumeralOf(s);
    NumeralRead(n);
    assert Nearest(ValueOf(n), ParseInt(text));
  }

  // ------------------------------------------------------------ the iterator

  /** strchr in a string without NUL; |str| stands for a null pointer. */
  method StrChrIn(str: string, from: nat, c: char) returns (r: nat)
    requires from <= |str|
    ensures r == Next(str, from, c)
  {
    var i := from;
    while i < |str| && str[i] != c
      invariant from <= i <= |str| && forall k :: from <= k < i ==> str[k] != c
    {
      i := i + 1;
    }
    NextIs(str, from, c, i);
    r := i;
  }

  /** struct option_iterator: positions in the option string. */
  class OptionIterator {
    const str: string
    var kStart: nat
    var kEnd: nat
    var vStart: nat
    var vEnd: int
    var end: bool

    /** The start of options_for_each_entry. */
    constructor (optstr: string)
      ensures Valid() && str == optstr && Rest() == Pairs(optstr, 0)
    {
      str := optstr;
      kStart, kEnd, vStart, vEnd, end := 0, 0, 0, -1, false;
    }

    ghost predicate Valid()
      reads this
    {
      -1 <= vEnd <= |str| && (!end ==> vEnd < |str|)
    }

    /** The pairs still to be iterated over. */
    ghost function Rest(): seq<Pair>
      requires Valid()
      reads this
    {
      if end then [] else Pairs(str, vEnd + 1)
    }

    ghost predicate At(p: Pair)
      reads this
    {
      kStart <= kEnd <= |str| && 0 <= vStart <= vEnd <= |str| && p == (str[kStart..kEnd], str[vStart..vEnd])
    }

    /** option_iterator_next: stops exactly when no pair is left, and otherwise stands at
        the next one. */
    method Advance() returns (stop: bool)
      requires Valid()
      modifies this
      ensures Valid() && stop == (old(Rest()) == [])
      ensures !stop ==> At(old(Rest())[0]) && Rest() == old(Rest())[1..]
    {
      hide Next;
      if end {
        return true;
      }
      kStart := vEnd + 1;
      if kStart == |str| {
        return true;
      }
      kEnd := StrChrIn(str, kStart, '=');
      if kEnd == |str| {
        return true;
      }
      vStart := kEnd + 1;
      vEnd := StrChrIn(str, vStart, ':');
      if vEnd == |str| {
        end := true;
      }
      stop := false;
    }

    /** option_key_cmp, as a test for equality. */
    method KeyIs(key: string, ghost p: Pair) returns (same: bool)
      requires At(p)
      ensures same == (key == p.0)
    {
      if |key| != kEnd - kStart {
        return false;
      }
      assert |p.0| == kEnd - kStart;
      same := str[kStart..kEnd] == key;
    }

    /** option_value_copy */
    method Value(ghost p: Pair) returns (v: string)
      requires At(p)
      ensures v == p.1
    {
      v := str[vStart..vEnd];
    }
  }

  // ------------------------------------------------------------ option_parse

  datatype Val = VString(s: string) | VInt32(i: int) | VInt64(i: int) | VOther(n: int)
  datatype Header = Header(name: string, val: Val)

  /** A value read as the type of the one it replaces; other types stay as they are. */
  function Convert(was: Val, text: string): Val {
    match was
    case VString(_) => VString(text)
    case VInt32(_) => VInt32(ToInt32(ParseInt(text)))
    case VInt64(_) => VInt64(ParseInt(text))
    case VOther(_) => was
  }

  /** The first entry with the name, or the length. */
  function EntryOf(opts: seq<Header>, name: string): (k: nat)
    ensures k <= |opts| && (k < |opts| ==> opts[k].name == name)
    ensures forall i :: 0 <= i < k ==> opts[i].name != name
  {
    if opts == [] || opts[0].name == name then 0 else 1 + EntryOf(opts[1..], name)
  }

  /** The entries after all pairs; None when a key has no entry. */
  function Apply(opts: seq<Header>, ps: seq<Pair>): Option<seq<Header>>
    decreases |ps|
  {
    if ps == [] then Some(opts)
    else
      var k := EntryOf(opts, ps[0].0);
      if k == |opts| then None
      else Apply(opts[k := Header(opts[k].name, Convert(opts[k].val, ps[0].1))], ps[1..])
  }

  /** The number an integer option gets from a text: what the text says, cut to 32 bits
      for an int32_t. */
  ghost predicate NumberFor(text: string, bits: nat, now: int)
    requires bits == 32 || bits == 64
  {
    if bits == 64 then Says(text, now)
    else -0x8000_0000 <= now < 0x8000_0000 && exists r :: Says(text, r) && (now - r) % 0x1_0000_0000 == 0
  }

  /** What an option becomes that a text is given for: strings take the text, integers the
      number in it, which is v for a text printed from v, and other types nothing. */
  ghost predicate Takes(was: Val, text: string, now: Val) {
    match was
    case VString(_) => now == VString(text)
    case VInt64(_) =>
      && now.VInt64? && NumberFor(text, 64, now.i)
      && (forall v :: INT64_MIN <= v <= INT64_MAX && text == PrintInt(v) ==> now.i == v)
    case VInt32(_) =>
      && now.VInt32? && NumberFor(text, 32, now.i)
      && (forall v :: -0x8000_0000 <= v < 0x8000_0000 && text == PrintInt(v) ==> now.i == v)
    case VOther(_) => now == was
  }

  lemma ReadsAgain(text: string, v: int)
    requires INT64_MIN <= v <= INT64_MAX && text == PrintInt(v)
    ensures ParseInt(text) == v && (-0x8000_0000 <= v < 0x8000_0000 ==> ToInt32(ParseInt(text)) == v)
  {
    IntRoundTrip(v);
  }

  lemma Int64Takes(text: string)
    ensures NumberFor(text, 64, ParseInt(text))
    ensures forall v :: INT64_MIN <= v <= INT64_MAX && text == PrintInt(v) ==> ParseInt(text) == v
  {
    ParseIntSays(text, ParseInt(text));
    hide Says, ParseInt, PrintInt, ToInt32;
    forall v | INT64_MIN <= v <= INT64_MAX && text == PrintInt(v) ensures ParseInt(text) == v {
      ReadsAgain(text, v);
    }
  }

  lemma Int32Takes(text: string)
    ensures NumberFor(text, 32, ToInt32(ParseInt(text)))
    ensures forall v :: -0x8000_0000 <= v < 0x8000_0000 && text == PrintInt(v) ==> ToInt32(ParseInt(text)) == v
  {
    ParseIntSays(text, ParseInt(text));
    Congruent(ParseInt(text));
    hide Says, ParseInt, PrintInt, ToInt32;
    forall v | -0x8000_0000 <= v < 0x8000_0000 && text == PrintInt(v) ensures ToInt32(ParseInt(text)) == v {
      ReadsAgain(text, v);
    }
  }

  lemma ConvertTakes(was: Val, text: string)
    ensures Takes(was, text, Convert(was, text))
  {
    Int64Takes(text);
    Int32Takes(text);
    hide NumberFor, ParseInt, PrintInt, ToInt32;
  }

  lemma Congruent(r: int)
    ensures -0x8000_0000 <= ToInt32(r) < 0x8000_0000 && (ToInt32(r) - r) % 0x1_0000_0000 == 0
  {}

  /** What the entries are after option_parse: every entry keeps its name, and its default
      unless a pair names it; then it takes the text of the last such pair. */
  ghost predicate Parsed(defaults: seq<Header>, ps: seq<Pair>, opts: seq<Header>) {
    && |opts| == |defaults|
    && forall i :: 0 <= i < |defaults| ==>
         && opts[i].name == defaults[i].name
         && match LastText(defaults, ps, i) {
              case None => opts[i] == defaults[i]
              case Some(text) => Takes(defaults[i].val, text, opts[i].val)
            }
  }

  lemma AppliedIsParsed(opts: seq<Header>, ps: seq<Pair>)
    ensures Apply(opts, ps).Some? <==> KeysKnown(opts, ps)
    ensures Apply(opts, ps).Some? ==> Parsed(opts, ps, Apply(opts, ps).value)
  {
    AppliedIsOverridden(opts, ps);
    hide Apply, LastText, Takes, Convert, KeysKnown;
    if Apply(opts, ps).Some? {
      forall i | 0 <= i < |opts| && LastText(opts, ps, i).Some?
        ensures Takes(opts[i].val, LastText(opts, ps, i).value, Apply(opts, ps).value[i].val)
      {
        ConvertTakes(opts[i].val, LastText(opts, ps, i).value);
      }
    }
  }

  /** option_parse: a copy of the defaults, overwritten entry by entry. It fails exactly if
      a pair names no entry. */
  method OptionParse(defaults: seq<Header>, optstr: Option<string>) returns (ok: bool, out: array<Header>)
    ensures fresh(out)
    ensures optstr == None ==> ok && out[..] == defaults
    ensures optstr.Some? ==> ok == KeysKnown(defaults, Pairs(optstr.value, 0))
    ensures optstr.Some? && ok ==> Parsed(defaults, Pairs(optstr.value, 0), out[..])
    ensures optstr.Some? ==> ok == Apply(defaults, Pairs(optstr.value, 0)).Some?
    ensures optstr.Some? && ok ==> out[..] == Apply(defaults, Pairs(optstr.value, 0)).value
  {
    out := new Header[|defaults|](i requires 0 <= i < |defaults| => defaults[i]);
    assert out[..] == defaults;
    if optstr == None {
      return true, out;
    }
    AppliedIsParsed(defaults, Pairs(optstr.value, 0));
    hide Pairs, Apply, EntryOf, KeysKnown, Parsed;
    var itr := new OptionIterator(optstr.value);
    while true
      invariant itr.Valid() && fresh(itr) && fresh(out)
      invariant Apply(out[..], itr.Rest()) == Apply(defaults, Pairs(optstr.value, 0))
      decreases |itr.Rest()|
    {
      ghost var ps := itr.Rest();
      var stop := itr.Advance();
      if stop {
        ApplyStep(out[..], ps);
        break;
      }
      ApplyStep(out[..], ps);
      var found := SetOption(out, itr, ps[0]);
      if !found {
        return false, out;
      }
    }
    ApplyNothing(out[..]);
    ok := true;
  }

  lemma ApplyStep(opts: seq<Header>, ps: seq<Pair>)
    ensures ps == [] ==> Apply(opts, ps) == Some(opts)
    ensures ps != [] ==>
              var k := EntryOf(opts, ps[0].0);
              Apply(opts, ps) == if k == |opts| then None
                                 else Apply(opts[k := Header(opts[k].name, Convert(opts[k].val, ps[0].1))], ps[1..])
  {}

  lemma ApplyNothing(opts: seq<Header>)
    ensures Apply(opts, []) == Some(opts)
  {}

  /** The search for the entry that a pair names, and its assignment. */
  method SetOption(opts: array<Header>, itr: OptionIterator, ghost p: Pair) returns (found: bool)
    requires itr.At(p)
    modifies opts
    ensures var k := EntryOf(old(opts[..]), p.0);
            && found == (k < opts.Length)
            && opts[..] == if found then
                             old(opts[..])[k := Header(old(opts[k]).name, Convert(old(opts[k]).val, p.1))]
                           else old(opts[..])
  {
    var i := 0;
    while i < opts.Length
      invariant i <= opts.Length && opts[..] == old(opts[..])
      invariant forall j :: 0 <= j < i ==> opts[j].name != p.0
    {
      var same := itr.KeyIs(opts[i].name, p);
      if same {
        var text := itr.Value(p);
        EntryIs(opts[..], p.0, i);
        opts[i] := Header(opts[i].name, Convert(opts[i].val, text));
        return true;
      }
      i := i + 1;
    }
    EntryIs(opts[..], p.0, i);
    found := false;
  }

  lemma EntryIs(opts: seq<Header>, name: string, i: nat)
    requires i <= |opts| && (i < |opts| ==> opts[i].name == name) && forall j :: 0 <= j < i ==> opts[j].name != name
    ensures EntryOf(opts, name) == i
  {}

  /** The text of the last pair that names entry i. */
  function LastText(opts: seq<Header>, ps: seq<Pair>, i: nat): Option<string>
    decreases |ps|
  {
    if ps == [] then None
    else if EntryOf(opts, ps[|ps| - 1].0) == i then Some(ps[|ps| - 1].1)
    else LastText(opts, ps[..|ps| - 1], i)
  }

  lemma {:induction false} LastTextFront(opts: seq<Header>, ps: seq<Pair>, i: nat)
    requires ps != []
    ensures LastText(opts, ps, i)
         == if LastText(opts, ps[1..], i).Some? then LastText(opts, ps[1..], i)
            else if EntryOf(opts, ps[0].0) == i then Some(ps[0].1) else None
    decreases |ps|
  {
    if |ps| > 1 {
      var front := ps[..|ps| - 1];
      LastTextFront(opts, front, i);
      assert ps[1..][..|ps| - 2] == front[1..];
      assert ps[1..][|ps| - 2] == ps[|ps| - 1];
    } else {
      assert ps[1..] == [];
    }
  }

  predicate SameNames(a: seq<Header>, b: seq<Header>) {
    |a| == |b| && forall i :: 0 <= i < |a| ==> a[i].name == b[i].name
  }

  lemma {:induction false} SameEntry(a: seq<Header>, b: seq<Header>, name: string)
    requires SameNames(a, b)
    ensures EntryOf(a, name) == EntryOf(b, name)
  {
    if a != [] {
      SameEntry(a[1..], b[1..], name);
    }
  }

  lemma {:induction false} SameLastText(a: seq<Header>, b: seq<Header>, ps: seq<Pair>, i: nat)
    requires SameNames(a, b)
    ensures LastText(a, ps, i) == LastText(b, ps, i)
    decreases |ps|
  {
    if ps != [] {
      SameEntry(a, b, ps[|ps| - 1].0);
      SameLastText(a, b, ps[..|ps| - 1], i);
    }
  }

  predicate KeysKnown(opts: seq<Header>, ps: seq<Pair>) {
    forall j :: 0 <= j < |ps| ==> EntryOf(opts, ps[j].0) < |opts|
  }

  /** Entry i after all pairs: the default, or what the last pair for it says, read as the
      default's type. */
  function Overridden(opts: seq<Header>, ps: seq<Pair>, i: nat): Header
    requires i < |opts|
  {
    match LastText(opts, ps, i)
    case None => opts[i]
    case Some(text) => Header(opts[i].name, Convert(opts[i].val, text))
  }

  /** option_parse succeeds exactly when every key has an entry, and then gives the
      defaults overridden from left to right. */
  lemma {:induction false} AppliedIsOverridden(opts: seq<Header>, ps: seq<Pair>)
    ensures Apply(opts, ps).Some? <==> KeysKnown(opts, ps)
    ensures Apply(opts, ps).Some? ==>
              && |Apply(opts, ps).value| == |opts|
              && forall i :: 0 <= i < |opts| ==> Apply(opts, ps).value[i] == Overridden(opts, ps, i)
    decreases |ps|
  {
    if ps != [] {
      var k := EntryOf(opts, ps[0].0);
      if k < |opts| {
        var opts' := opts[k := Header(opts[k].name, Convert(opts[k].val, ps[0].1))];
        AppliedIsOverridden(opts', ps[1..]);
        KnownStep(opts, opts', ps);
        forall i | 0 <= i < |opts| ensures Overridden(opts', ps[1..], i) == Overridden(opts, ps, i) {
          LastTextFront(opts, ps, i);
          SameLastText(opts', opts, ps[1..], i);
        }
      }
    }
  }

  lemma KnownStep(opts: seq<Header>, opts': seq<Header>, ps: seq<Pair>)
    requires ps != [] && SameNames(opts', opts) && EntryOf(opts, ps[0].0) < |opts|
    ensures KeysKnown(opts, ps) <==> KeysKnown(opts', ps[1..])
  {
    forall j | 0 <= j < |ps| ensures EntryOf(opts', ps[j].0) == EntryOf(opts, ps[j].0) {
      SameEntry(opts', opts, ps[j].0);
    }
    if KeysKnown(opts', ps[1..]) {
      forall j | 0 <= j < |ps| ensures EntryOf(opts, ps[j].0) < |opts| {
        if j > 0 {
          assert ps[1..][j - 1] == ps[j];
        }
      }
    }
    if KeysKnown(opts, ps) {
      forall j | 0 <= j < |ps| - 1 ensures EntryOf(opts', ps[1..][j].0) < |opts'| {
        assert ps[1..][j] == ps[j + 1];
      }
    }
  }
}
