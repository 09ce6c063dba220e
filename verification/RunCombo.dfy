/** The run combination grammar: plugin links separated by `;`, each a name, version rules
    after `@` and options after `:`. The argument buffer is cut in place. */
module RunCombo {
  import opened Basics

  /** A link as text: the rules are still one string. */
  datatype Link = Link(name: string, rules: Option<string>, options: Option<string>)

  /** Where c first stands in s, or |s|. */
  function Find(s: string, c: char): (k: nat)
    ensures k <= |s| && (k < |s| ==> s[k] == c) && forall i :: 0 <= i < k ==> s[i] != c
  {
    if s == "" || s[0] == c then 0 else 1 + Find(s[1..], c)
  }

  function NonEmpty(s: string): Option<string> {
    if s == "" then None else Some(s)
  }

  /** The text behind the first c, if there is one and something follows it. */
  function After(s: string, c: char): Option<string> {
    var k := Find(s, c);
    if k < |s| then NonEmpty(s[k + 1..]) else None
  }

  function ParseLink(s: string): Link {
    var v := Find(s, '@');
    if v == |s| then Link(s[..Find(s, ':')], None, After(s, ':'))
    else
      var rest := s[v + 1..];
      Link(s[..v], NonEmpty(rest[..Find(rest, ':')]), After(rest, ':'))
  }

  function ParseCombo(s: string): seq<Link> {
    if s == "" then []
    else
      var k := Find(s, ';');
      [ParseLink(s[..k])] + (if k < |s| then ParseCombo(s[k + 1..]) else [])
  }

  /** What stands between the c in s; nothing behind the last c is no piece. */
  function Pieces(s: string, c: char): seq<string> {
    if s == "" then []
    else
      var k := Find(s, c);
      [s[..k]] + (if k < |s| then Pieces(s[k + 1..], c) else [])
  }

  // ---------------------------------------------------------------- printing

  function PrintLink(l: Link): string {
    l.name
    + (match l.rules case None => "" case Some(r) => "@" + r)
    + (match l.options case None => "" case Some(o) => ":" + o)
  }

  function PrintCombo(ls: seq<Link>): string {
    if ls == [] then ""
    else if |ls| == 1 then PrintLink(ls[0])
    else PrintLink(ls[0]) + ";" + PrintCombo(ls[1..])
  }

  predicate Without(s: string, c: char) {
    forall i :: 0 <= i < |s| ==> s[i] != c
  }

  /** A link that the grammar can write down: without rules its name and options must not
      be mistaken for some, with rules only these must end where they end. */
  predicate Plain(l: Link) {
    && Without(l.name, '@') && Without(l.name, ';')
    && (l.options.Some? ==> l.options.value != "" && Without(l.options.value, ';'))
    && match l.rules
       case None => Without(l.name, ':') && (l.options.Some? ==> Without(l.options.value, '@'))
       case Some(r) => r != "" && Without(r, ':') && Without(r, ';')
  }

  lemma {:induction false} FindInJoin(s: string, t: string, c: char)
    requires Without(s, c)
    ensures Find(s + t, c) == |s| + Find(t, c)
  {
    if s == "" {
      assert s + t == t;
    } else {
      assert (s + t)[1..] == s[1..] + t;
      FindInJoin(s[1..], t, c);
    }
  }

  lemma FindNothing(s: string, c: char)
    requires Without(s, c)
    ensures Find(s, c) == |s| && s[..|s|] == s
  {}

  lemma WithoutInJoin(s: string, t: string, c: char)
    requires Without(s, c) && Without(t, c)
    ensures Without(s + t, c)
  {}

  lemma CutAtFirst(s: string, t: string, c: char)
    requires Without(s, c)
    ensures var r := s + ([c] + t); Find(r, c) == |s| < |r| && r[..|s|] == s && r[|s| + 1..] == t
  {
    FindInJoin(s, [c] + t, c);
  }

  function PrintOptions(o: Option<string>): string {
    match o case None => "" case Some(t) => [':'] + t
  }

  lemma OptionsFound(s: string, o: Option<string>)
    requires Without(s, ':') && (o.Some? ==> o.value != "")
    ensures var r := s + PrintOptions(o); r[..Find(r, ':')] == s && After(r, ':') == o
  {
    match o {
      case None =>
        assert s + "" == s;
        FindNothing(s, ':');
      case Some(t) => CutAtFirst(s, t, ':');
    }
  }

  lemma OptionsWithout(s: string, o: Option<string>, c: char)
    requires Without(s, c) && c != ':' && (o.Some? ==> Without(o.value, c))
    ensures Without(s + PrintOptions(o), c)
  {
    WithoutInJoin(s, PrintOptions(o), c);
  }

  lemma PrintedLink(l: Link)
    requires Plain(l)
    ensures Without(PrintLink(l), ';')
    ensures PrintLink(l) == match l.rules
                            case None => l.name + PrintOptions(l.options)
                            case Some(r) => l.name + (['@'] + (r + PrintOptions(l.options)))
  {
    match l.rules {
      case None =>
        assert PrintLink(l) == l.name + PrintOptions(l.options);
        OptionsWithout(l.name, l.options, ';');
      case Some(r) =>
        var rest := r + PrintOptions(l.options);
        assert PrintLink(l) == l.name + (['@'] + rest);
        OptionsWithout(r, l.options, ';');
        WithoutInJoin(['@'], rest, ';');
        WithoutInJoin(l.name, ['@'] + rest, ';');
    }
  }

  lemma LinkRoundTrip(l: Link)
    requires Plain(l)
    ensures ParseLink(PrintLink(l)) == l
  {
    PrintedLink(l);
    match l.rules {
      case None =>
        OptionsFound(l.name, l.options);
        OptionsWithout(l.name, l.options, '@');
        FindNothing(PrintLink(l), '@');
      case Some(r) =>
        CutAtFirst(l.name, r + PrintOptions(l.options), '@');
        OptionsFound(r, l.options);
    }
  }

  lemma NothingToParse()
    ensures ParseCombo("") == []
  {}

  lemma ParseUnfold(rest: string)
    requires rest != ""
    ensures var k := Find(rest, ';');
            ParseCombo(rest) == [ParseLink(rest[..k])] + ParseCombo(if k < |rest| then rest[k + 1..] else "")
  {
    hide Find, ParseLink;
    NothingToParse();
  }

  lemma ParseFirst(first: string, rest: string)
    requires Without(first, ';')
    ensures ParseCombo(first + ([';'] + rest)) == [ParseLink(first)] + ParseCombo(rest)
  {
    CutAtFirst(first, rest, ';');
    hide Find, ParseLink, ParseCombo;
    ParseUnfold(first + ([';'] + rest));
  }

  lemma LastRoundTrip(l: Link)
    requires Plain(l)
    ensures RoundTrips([l]) <==> !PrintsNothing(l)
  {
    PrintedLink(l);
    LinkRoundTrip(l);
    assert PrintCombo([l]) == PrintLink(l);
    hide PrintLink, ParseLink, Without, Plain, Find;
    FindNothing(PrintLink(l), ';');
  }

  lemma SameTail(ls: seq<Link>, l: Link, rest: seq<Link>)
    requires ls != [] && ls[0] == l
    ensures [l] + rest == ls <==> rest == ls[1..]
  {
    assert ls == [ls[0]] + ls[1..];
    assert ([l] + rest)[1..] == rest;
  }

  predicate RoundTrips(ls: seq<Link>) {
    ParseCombo(PrintCombo(ls)) == ls
  }

  predicate PrintsNothing(l: Link) {
    PrintLink(l) == ""
  }

  lemma FirstRoundTrips(ls: seq<Link>)
    requires |ls| > 1 && Plain(ls[0])
    ensures RoundTrips(ls) <==> RoundTrips(ls[1..])
  {
    var first, rest := PrintLink(ls[0]), PrintCombo(ls[1..]);
    PrintedLink(ls[0]);
    LinkRoundTrip(ls[0]);
    assert PrintCombo(ls) == first + ([';'] + rest);
    hide PrintLink, ParseLink, Without, Plain, ParseCombo, PrintCombo;
    ParseFirst(first, rest);
    SameTail(ls, ls[0], ParseCombo(rest));
  }

  predicate AllPlain(ls: seq<Link>) {
    forall i :: 0 <= i < |ls| ==> Plain(ls[i])
  }

  lemma PlainTail(ls: seq<Link>)
    requires AllPlain(ls) && |ls| > 1
    ensures AllPlain(ls[1..]) && Plain(ls[0]) && ls[1..][|ls| - 2] == ls[|ls| - 1]
  {
    hide Plain;
    assert forall i :: 0 <= i < |ls| - 1 ==> ls[1..][i] == ls[i + 1];
  }

  lemma PlainSingle(ls: seq<Link>)
    requires AllPlain(ls) && |ls| == 1
    ensures Plain(ls[0]) && ls == [ls[0]]
  {}

  lemma NoLinksRoundTrip()
    ensures RoundTrips([])
  {}

  /** Printing and parsing a combination gives back the same links, if and only if the last
      link prints as something: a nameless last link without rules and options is lost. */
  lemma {:induction false} ComboRoundTrip(ls: seq<Link>)
    requires AllPlain(ls)
    ensures RoundTrips(ls) <==> ls == [] || !PrintsNothing(ls[|ls| - 1])
  {
    hide *;
    if ls == [] {
      NoLinksRoundTrip();
    } else if |ls| == 1 {
      PlainSingle(ls);
      LastRoundTrip(ls[0]);
    } else {
      PlainTail(ls);
      FirstRoundTrips(ls);
      ComboRoundTrip(ls[1..]);
    }
  }

  /** The shortest combination that is lost. */
  lemma EmptyLinkLost()
    ensures Plain(Link("", None, None)) && ParseCombo(PrintCombo([Link("", None, None)])) == []
  {}

  // ------------------------------------------------------- cutting in place

  /** The C string that starts at `off` in the buffer. */
  predicate Reads(b: seq<char>, off: nat, s: string) {
    && off + |s| < |b| && b[off..off + |s|] == s && b[off + |s|] == '\0' && Without(s, '\0')
  }

  /** strchr: the position of the first c of the string at `off`. */
  method StrChr(a: array<char>, off: nat, c: char, ghost s: string) returns (r: Option<nat>)
    requires Reads(a[..], off, s) && c != '\0'
    ensures r == if Find(s, c) < |s| then Some(off + Find(s, c)) else None
  {
    var i := off;
    while a[i] != '\0' && a[i] != c
      invariant off <= i <= off + |s|
      invariant forall k :: 0 <= k < i - off ==> s[k] != c
      decreases off + |s| - i
    {
      assert a[i] == a[..][off..off + |s|][i - off];
      i := i + 1;
    }
    assert i < off + |s| ==> a[i] == a[..][off..off + |s|][i - off];
    r := if a[i] == c then Some(i) else None;
  }

  /** An element of the array of rules: a position in the buffer, NULL, or nothing yet. */
  datatype Entry = At(off: nat) | Null | Unset

  /** struct plugin_link: positions in the buffer, or NULL. */
  datatype Slot = Slot(name: Option<nat>, rules: Option<seq<Entry>>, options: Option<nat>)

  const NULL_SLOT := Slot(None, None, None)

  /** The slot's part reads as the text, in the buffer before `limit`; NULL where there is
      none. */
  predicate Part(b: seq<char>, at: Option<nat>, text: Option<string>, limit: nat) {
    match text
    case None => at == None
    case Some(t) => at.Some? && Reads(b, at.value, t) && at.value + |t| < limit
  }

  predicate Piece(b: seq<char>, e: Entry, t: string, limit: nat) {
    e.At? && Reads(b, e.off, t) && e.off + |t| < limit
  }

  /** The array that create_version_rules leaves for the text: one entry for each rule,
      then one that is never set, and only then NULL. */
  predicate Rules(b: seq<char>, es: seq<Entry>, text: string, limit: nat) {
    var ps := Pieces(text, '@');
    && |es| == |ps| + 2 && es[|ps|] == Unset && es[|ps| + 1] == Null
    && forall i :: 0 <= i < |ps| ==> Piece(b, es[i], ps[i], limit)
  }

  predicate RulesPart(b: seq<char>, at: Option<seq<Entry>>, text: Option<string>, limit: nat) {
    match text
    case None => at == None
    case Some(t) => at.Some? && Rules(b, at.value, t, limit)
  }

  predicate Shows(b: seq<char>, slot: Slot, l: Link, limit: nat) {
    && Part(b, slot.name, Some(l.name), limit)
    && RulesPart(b, slot.rules, l.rules, limit)
    && Part(b, slot.options, l.options, limit)
  }

  /** Nothing outside lo..hi has changed. */
  predicate Outside(b: seq<char>, b': seq<char>, lo: nat, hi: nat) {
    lo <= hi <= |b| == |b'| && b[..lo] == b'[..lo] && b[hi..] == b'[hi..]
  }

  lemma OutsideTwice(b: seq<char>, b': seq<char>, b'': seq<char>, lo: nat, hi: nat, lo': nat, hi': nat)
    requires Outside(b, b', lo, hi) && Outside(b', b'', lo', hi')
    ensures Outside(b, b'', if lo < lo' then lo else lo', if hi > hi' then hi else hi')
  {
    var l, h := if lo < lo' then lo else lo', if hi > hi' then hi else hi';
    assert b[..l] == b[..lo][..l] == b'[..lo'][..l] == b''[..l];
    assert b[h..] == b[hi..][h - hi..] == b'[hi'..][h - hi'..] == b''[h..];
  }

  lemma ReadsStays(b: seq<char>, b': seq<char>, off: nat, t: string, lo: nat, hi: nat)
    requires Reads(b, off, t) && Outside(b, b', lo, hi) && off + |t| < lo
    ensures Reads(b', off, t)
  {
    assert b'[off..off + |t|] == b'[..lo][off..off + |t|] == b[..lo][off..off + |t|] == b[off..off + |t|];
    assert b'[off + |t|] == b'[..lo][off + |t|] == b[..lo][off + |t|];
  }

  lemma RulesStay(b: seq<char>, b': seq<char>, es: seq<Entry>, text: string, lo: nat, hi: nat)
    requires Rules(b, es, text, lo) && Outside(b, b', lo, hi)
    ensures Rules(b', es, text, lo)
  {
    hide Reads, Outside, Pieces;
    var ps := Pieces(text, '@');
    forall i | 0 <= i < |ps| ensures Piece(b', es[i], ps[i], lo) {
      ReadsStays(b, b', es[i].off, ps[i], lo, hi);
    }
  }

  lemma ShowsStays(b: seq<char>, b': seq<char>, slot: Slot, l: Link, lo: nat, hi: nat)
    requires Shows(b, slot, l, lo) && Outside(b, b', lo, hi)
    ensures Shows(b', slot, l, lo)
  {
    hide Reads, Outside, Pieces;
    ReadsStays(b, b', slot.name.value, l.name, lo, hi);
    if l.rules.Some? {
      RulesStay(b, b', slot.rules.value, l.rules.value, lo, hi);
    }
    if l.options.Some? {
      ReadsStays(b, b', slot.options.value, l.options.value, lo, hi);
    }
  }

  /** A NUL written into a string leaves two strings. */
  method PutNul(a: array<char>, off: nat, k: nat, ghost s: string)
    requires Reads(a[..], off, s) && k < |s|
    modifies a
    ensures Reads(a[..], off, s[..k]) && Reads(a[..], off + k + 1, s[k + 1..])
    ensures Outside(old(a[..]), a[..], off + k, off + k + 1)
  {
    ghost var b := a[..];
    a[off + k] := '\0';
    assert a[..][off..off + k] == b[off..off + |s|][..k];
    assert a[..][off + k + 1..off + |s|] == b[off..off + |s|][k + 1..];
  }

  method AtEnd(a: array<char>, off: nat, ghost s: string) returns (end: bool)
    requires Reads(a[..], off, s)
    ensures end == (s == "")
  {
    assert s != "" ==> a[off] == a[..][off..off + |s|][0];
    end := a[off] == '\0';
  }

  lemma Fits(b: seq<char>, off: nat, s: string)
    requires Reads(b, off, s)
    ensures off + |s| < |b|
  {}

  lemma NothingOutside(b: seq<char>, lo: nat, hi: nat)
    requires lo <= hi <= |b|
    ensures Outside(b, b, lo, hi)
  {}

  lemma OutsideWider(b: seq<char>, b': seq<char>, lo: nat, hi: nat, lo': nat, hi': nat)
    requires Outside(b, b', lo, hi) && lo' <= lo && hi <= hi' <= |b|
    ensures Outside(b, b', lo', hi')
  {
    NothingOutside(b', lo', hi');
    OutsideTwice(b, b', b', lo, hi, lo', hi');
  }

  /** The options part of create_plugin_link: what follows the first `:`, which is cut
      off. */
  method CutOptions(a: array<char>, arg: nat, ghost s: string) returns (options: Option<nat>)
    requires Reads(a[..], arg, s)
    modifies a
    ensures Reads(a[..], arg, s[..Find(s, ':')]) && Part(a[..], options, After(s, ':'), arg + |s| + 1)
    ensures options.Some? ==> options.value == arg + Find(s, ':') + 1
    ensures Outside(old(a[..]), a[..], arg, arg + |s|)
  {
    hide Reads, Outside, Find;
    Fits(a[..], arg, s);
    NothingOutside(a[..], arg, arg + |s|);
    options := None;
    var colon := StrChr(a, arg, ':', s);
    ghost var k := Find(s, ':');
    if colon.Some? {
      ghost var b := a[..];
      PutNul(a, arg, colon.value - arg, s);
      OutsideWider(b, a[..], arg + k, arg + k + 1, arg, arg + |s|);
      var empty := AtEnd(a, colon.value + 1, s[k + 1..]);
      if !empty {
        options := Some(colon.value + 1);
      }
    } else {
      assert s[..|s|] == s;
    }
  }

  /** Counting the pieces of a string, from one on. */
  method CountPieces(a: array<char>, off: nat, c: char, ghost s: string) returns (n: nat)
    requires Reads(a[..], off, s) && c != '\0'
    ensures n == |Pieces(s, c)| + 1
  {
    hide Reads, Find, Pieces;
    n := 1;
    NoPieces(c);
    var vs: Option<nat> := Some(off);
    ghost var rest := s;
    while vs.Some?
      invariant vs.Some? ==> Reads(a[..], vs.value, rest)
      invariant vs == None ==> rest == ""
      invariant n + |Pieces(rest, c)| == |Pieces(s, c)| + 1
      decreases |rest|, vs
    {
      var end := AtEnd(a, vs.value, rest);
      if end {
        break;
      }
      n := n + 1;
      PiecesUnfold(rest, c);
      ghost var k := Find(rest, c);
      var found := StrChr(a, vs.value, c, rest);
      if found.Some? {
        TailReads(a[..], vs.value, rest, k + 1);
        vs := Some(found.value + 1);
        rest := rest[k + 1..];
      } else {
        vs := None;
        rest := "";
      }
    }
  }

  lemma NoPieces(c: char)
    ensures Pieces("", c) == []
  {}

  lemma PiecesUnfold(s: string, c: char)
    requires s != ""
    ensures var k := Find(s, c);
            Pieces(s, c) == [s[..k]] + Pieces(if k < |s| then s[k + 1..] else "", c)
  {
    hide Find;
    NoPieces(c);
  }

  lemma PiecesRest(all: seq<string>, i: nat, rest: string, c: char)
    requires i <= |all| && all[i..] == Pieces(rest, c) && rest != ""
    ensures var k := Find(rest, c);
            && i < |all| && all[i] == rest[..k]
            && all[i + 1..] == Pieces(if k < |rest| then rest[k + 1..] else "", c)
  {
    hide Find, Pieces;
    var k := Find(rest, c);
    PiecesUnfold(rest, c);
    SliceTail(all, i, rest[..k], Pieces(if k < |rest| then rest[k + 1..] else "", c));
  }

  lemma {:induction false} PiecesAndLinks(s: string)
    ensures |Pieces(s, ';')| == |ParseCombo(s)|
    decreases |s|
  {
    hide Find, ParseLink;
    var k := Find(s, ';');
    if s != "" && k < |s| {
      PiecesAndLinks(s[k + 1..]);
    }
  }

  /** A NUL in place of the first c. */
  method CutFirst(a: array<char>, off: nat, c: char, ghost rest: string) returns (next: Option<nat>)
    requires Reads(a[..], off, rest) && c != '\0'
    modifies a
    ensures var k := Find(rest, c);
            && off + k + 1 <= a.Length
            && Reads(a[..], off, rest[..k]) && Outside(old(a[..]), a[..], off + k, off + k + 1)
            && (if k < |rest| then next == Some(off + k + 1) && Reads(a[..], off + k + 1, rest[k + 1..]) else next == None)
            && (k == |rest| ==> a[..] == old(a[..]))
  {
    hide Reads, Find, Outside;
    Fits(a[..], off, rest);
    ghost var k := Find(rest, c);
    next := StrChr(a, off, c, rest);
    if next.Some? {
      PutNul(a, off, next.value - off, rest);
      next := Some(next.value + 1);
    } else {
      NothingOutside(a[..], off + k, off + k + 1);
      assert rest[..k] == rest;
    }
  }

  /** create_version_rules on the string at `arg`, without the size in bytes of what it
      allocates. */
  method CreateVersionRules(a: array<char>, arg: nat, ghost s: string) returns (rules: array<Entry>)
    requires Reads(a[..], arg, s)
    modifies a
    ensures fresh(rules) && Rules(a[..], rules[..], s, arg + |s| + 1)
    ensures Outside(old(a[..]), a[..], arg, arg + |s|)
  {
    hide Reads, Find, Outside, Pieces;
    Fits(a[..], arg, s);
    NothingOutside(a[..], arg, arg + |s|);
    ghost var b := a[..];
    var nrRules := CountPieces(a, arg, '@', s);
    rules := new Entry[nrRules + 1](_ => Unset);
    rules[nrRules] := Null;
    var vs, i := Some(arg), 0;
    ghost var all, rest, limit: nat := Pieces(s, '@'), s, arg;
    while vs.Some?
      invariant i <= |all| && all[i..] == Pieces(rest, '@') && rules.Length == |all| + 2
      invariant vs.Some? ==> Reads(a[..], vs.value, rest) && limit == vs.value && limit + |rest| == arg + |s|
      invariant vs == None ==> rest == ""
      invariant limit <= arg + |s| + 1 && Outside(b, a[..], arg, arg + |s|)
      invariant forall k :: 0 <= k < i ==> Piece(a[..], rules[k], all[k], limit)
      invariant forall k :: i <= k <= |all| ==> rules[k] == Unset
      invariant rules[|all| + 1] == Null
      decreases |rest|, vs
    {
      var end := AtEnd(a, vs.value, rest);
      if end {
        break;
      }
      ghost var b', k := a[..], Find(rest, '@');
      PiecesRest(all, i, rest, '@');
      var here := vs.value;
      vs := CutFirst(a, here, '@', rest);
      PiecesStay(b', a[..], rules[..i], all[..i], limit, here + k, here + k + 1);
      if vs.Some? {
        OutsideWider(b', a[..], here + k, here + k + 1, arg, arg + |s|);
        OutsideTwice(b, b', a[..], arg, arg + |s|, arg, arg + |s|);
      }
      rules[i] := At(here);
      limit := here + k + 1;
      rest := if k < |rest| then rest[k + 1..] else "";
      i := i + 1;
    }
    NoPieces('@');
    assert i == |all|;
  }

  lemma PiecesStay(b: seq<char>, b': seq<char>, es: seq<Entry>, ps: seq<string>, limit: nat, lo: nat, hi: nat)
    requires |es| == |ps| && forall i :: 0 <= i < |es| ==> Piece(b, es[i], ps[i], limit)
    requires Outside(b, b', lo, hi) && limit <= lo
    ensures forall i :: 0 <= i < |es| ==> Piece(b', es[i], ps[i], limit)
  {
    hide Reads, Outside;
    forall i | 0 <= i < |es| ensures Piece(b', es[i], ps[i], limit) {
      ReadsStays(b, b', es[i].off, ps[i], lo, hi);
    }
  }

  /** The rules part of create_plugin_link, with the options behind it left alone. */
  method SplitRules(a: array<char>, at: nat, ghost s: string, options: Option<nat>,
                    ghost text: Option<string>, ghost limit: nat)
    returns (rules: Option<seq<Entry>>)
    requires Reads(a[..], at, s) && Part(a[..], options, text, limit) && (options.Some? ==> at + |s| < options.value)
    modifies a
    ensures RulesPart(a[..], rules, NonEmpty(s), at + |s| + 1) && Part(a[..], options, text, limit)
    ensures Outside(old(a[..]), a[..], at, at + |s|)
  {
    hide Reads, Outside, Rules;
    Fits(a[..], at, s);
    NothingOutside(a[..], at, at + |s|);
    var none := AtEnd(a, at, s);
    if none {
      return None;
    }
    ghost var b := a[..];
    var es := CreateVersionRules(a, at, s);
    if options.Some? {
      ReadsAfter(b, a[..], options.value, text.value, at, at + |s|);
    }
    rules := Some(es[..]);
  }

  lemma RulesWider(b: seq<char>, es: seq<Entry>, text: string, limit: nat, limit': nat)
    requires Rules(b, es, text, limit) && limit <= limit'
    ensures Rules(b, es, text, limit')
  {
    hide Reads, Pieces;
  }

  /** create_plugin_link on the string at `arg`. */
  method CreatePluginLink(a: array<char>, arg: nat, ghost s: string) returns (plug: Slot)
    requires Reads(a[..], arg, s)
    modifies a
    ensures Shows(a[..], plug, ParseLink(s), arg + |s| + 1)
    ensures Outside(old(a[..]), a[..], arg, arg + |s|)
  {
    hide Reads, Outside, Find, Rules;
    Fits(a[..], arg, s);
    plug := NULL_SLOT.(name := Some(arg));
    var versStart := StrChr(a, arg, '@', s);
    ghost var v := Find(s, '@');
    if versStart == None {
      var options := CutOptions(a, arg, s);
      plug := plug.(options := options);
    } else {
      ghost var b := a[..];
      PutNul(a, arg, versStart.value - arg, s);
      ghost var b' := a[..];
      var rules, options := RulesAndOptions(a, versStart.value + 1, s[v + 1..]);
      ReadsStays(b', a[..], arg, s[..v], arg + v + 1, arg + |s|);
      OutsideTwice(b, b', a[..], arg + v, arg + v + 1, arg + v + 1, arg + |s|);
      OutsideWider(b, a[..], arg + v, arg + |s|, arg, arg + |s|);
      plug := plug.(options := options, rules := rules);
    }
  }

  /** What follows the name of a link with rules. */
  method RulesAndOptions(a: array<char>, at: nat, ghost rest: string)
    returns (rules: Option<seq<Entry>>, options: Option<nat>)
    requires Reads(a[..], at, rest)
    modifies a
    ensures RulesPart(a[..], rules, NonEmpty(rest[..Find(rest, ':')]), at + |rest| + 1)
    ensures Part(a[..], options, After(rest, ':'), at + |rest| + 1)
    ensures Outside(old(a[..]), a[..], at, at + |rest|)
  {
    hide Reads, Outside, Find, Rules, After;
    Fits(a[..], at, rest);
    ghost var b, text := a[..], rest[..Find(rest, ':')];
    options := CutOptions(a, at, rest);
    ghost var b' := a[..];
    rules := SplitRules(a, at, text, options, After(rest, ':'), at + |rest| + 1);
    if rules.Some? {
      RulesWider(a[..], rules.value, text, at + |text| + 1, at + |rest| + 1);
    }
    OutsideTwice(b, b', a[..], at, at + |rest|, at, at + |text|);
  }

  /** The first loop of create_run_combo, which counts how many slots are needed. */
  method CountLinks(a: array<char>, ghost s: string) returns (n: nat)
    requires Reads(a[..], 0, s)
    ensures n == |ParseCombo(s)| + 1
  {
    PiecesAndLinks(s);
    n := CountPieces(a, 0, ';', s);
  }

  lemma TailReads(b: seq<char>, off: nat, s: string, k: nat)
    requires Reads(b, off, s) && k <= |s|
    ensures Reads(b, off + k, s[k..])
  {
    assert b[off + k..off + |s|] == b[off..off + |s|][k..];
  }

  /** create_run_combo: one slot for each link of the grammar, each reading as its text in
      the cut buffer, and NULL behind them. */
  method CreateRunCombo(a: array<char>, ghost s: string) returns (plugs: array<Slot>)
    requires Reads(a[..], 0, s)
    modifies a
    ensures fresh(plugs) && |ParseCombo(s)| < plugs.Length
    ensures forall i :: 0 <= i < |ParseCombo(s)| ==> Shows(a[..], plugs[i], ParseCombo(s)[i], a.Length)
    ensures forall i :: |ParseCombo(s)| <= i < plugs.Length ==> plugs[i] == NULL_SLOT
  {
    hide Reads, Find, Outside, Shows, ParseLink, ParseCombo;
    var nrPlugs := CountLinks(a, s);
    plugs := new Slot[nrPlugs + 1](_ => NULL_SLOT);
    var rc: Option<nat> := Some(0);
    var i := 0;
    ghost var all, rest, limit: nat := ParseCombo(s), s, 0;
    while rc.Some?
      invariant i <= |all| && all[i..] == ParseCombo(rest) && plugs.Length == |all| + 2
      invariant rc.Some? ==> Reads(a[..], rc.value, rest) && limit == rc.value
      invariant rc == None ==> rest == ""
      invariant limit <= a.Length
      invariant forall k :: 0 <= k < i ==> Shows(a[..], plugs[k], all[k], limit)
      invariant forall k :: i <= k < plugs.Length ==> plugs[k] == NULL_SLOT
      decreases |rest|, rc
    {
      var end := AtEnd(a, rc.value, rest);
      if end {
        break;
      }
      var slot;
      ghost var b, k := a[..], Find(rest, ';');
      ParseRest(all, i, rest);
      slot, rc := NextLink(a, rc.value, rest);
      ghost var limit': nat := limit + k + 1;
      forall m | 0 <= m < i ensures Shows(a[..], plugs[m], all[m], limit') {
        ShowsStays(b, a[..], plugs[m], all[m], limit, limit');
        ShowsWider(a[..], plugs[m], all[m], limit, limit');
      }
      plugs[i] := slot;
      rest := if k < |rest| then rest[k + 1..] else "";
      i, limit := i + 1, limit';
    }
    NothingToParse();
    forall m | 0 <= m < i ensures Shows(a[..], plugs[m], all[m], a.Length) {
      ShowsWider(a[..], plugs[m], all[m], limit, a.Length);
    }
  }

  lemma SliceTail<T>(all: seq<T>, i: nat, x: T, tail: seq<T>)
    requires i <= |all| && all[i..] == [x] + tail
    ensures i < |all| && all[i] == x && all[i + 1..] == tail
  {
    assert all[i] == all[i..][0];
    assert all[i + 1..] == all[i..][1..];
  }

  lemma ParseRest(all: seq<Link>, i: nat, rest: string)
    requires i <= |all| && all[i..] == ParseCombo(rest) && rest != ""
    ensures var k := Find(rest, ';');
            && i < |all| && all[i] == ParseLink(rest[..k])
            && all[i + 1..] == ParseCombo(if k < |rest| then rest[k + 1..] else "")
  {
    hide Find, ParseLink, ParseCombo;
    var k := Find(rest, ';');
    ParseUnfold(rest);
    SliceTail(all, i, ParseLink(rest[..k]), ParseCombo(if k < |rest| then rest[k + 1..] else ""));
  }

  lemma ShowsWider(b: seq<char>, slot: Slot, l: Link, limit: nat, limit': nat)
    requires Shows(b, slot, l, limit) && limit <= limit'
    ensures Shows(b, slot, l, limit')
  {
    hide Reads, Rules;
    if l.rules.Some? {
      RulesWider(b, slot.rules.value, l.rules.value, limit, limit');
    }
  }

  /** The body of the main loop: cut off the first link and parse it. */
  method NextLink(a: array<char>, rc: nat, ghost rest: string) returns (slot: Slot, next: Option<nat>)
    requires Reads(a[..], rc, rest) && rest != ""
    modifies a
    ensures var k := Find(rest, ';');
            && rc + k + 1 <= a.Length
            && Shows(a[..], slot, ParseLink(rest[..k]), rc + k + 1) && Outside(old(a[..]), a[..], rc, rc + k + 1)
            && (if k < |rest| then next == Some(rc + k + 1) && Reads(a[..], rc + k + 1, rest[k + 1..]) else next == None)
  {
    hide Reads, Find, Shows, ParseLink, Outside;
    ghost var b, k := a[..], Find(rest, ';');
    next := CutFirst(a, rc, ';', rest);
    ghost var b' := a[..];
    slot := CreatePluginLink(a, rc, rest[..k]);
    OutsideTwice(b, b', a[..], rc + k, rc + k + 1, rc, rc + k);
    if next.Some? {
      ReadsAfter(b', a[..], rc + k + 1, rest[k + 1..], rc, rc + k);
    }
  }

  lemma ReadsAfter(b: seq<char>, b': seq<char>, off: nat, t: string, lo: nat, hi: nat)
    requires Reads(b, off, t) && Outside(b, b', lo, hi) && hi <= off
    ensures Reads(b', off, t)
  {
    var at := off - hi;
    assert b'[off..off + |t|] == b'[hi..][at..at + |t|] == b[hi..][at..at + |t|] == b[off..off + |t|];
    assert b'[off + |t|] == b'[hi..][off + |t| - hi] == b[hi..][off + |t| - hi];
  }
}
