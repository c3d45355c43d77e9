/**
 Abstract syntax of the regular expressions accepted by the parser, and what they mean.

 Two meanings are given. `Lang` is the plain one: which text intervals a pattern matches, with the
 surrounding text as context for `^`, `$` and `\b`. `Derives` also threads the capture slots through
 the match, so that it says which captures one particular way of matching records.
 */
module RegexSyntax {

  type Byte = i: int | 0 <= i < 256

  const MAX_CAPTURES := 16
  const SLOT_COUNT := 2 * MAX_CAPTURES
  const MAX_REPEAT := 128
  const NEWLINE: Byte := 10
  const UNSET := -1

  datatype Flags = Flags(caseInsensitive: bool, dotAll: bool, multiline: bool)

  /** What a pattern is matched against: the compile-time flags and the text. */
  datatype Subject = Subject(flags: Flags, text: seq<Byte>)

  /** Capture slots: 2k holds the start of capture k, 2k + 1 its end, UNSET where nothing was recorded. */
  type Slots = s: seq<int> | |s| == SLOT_COUNT witness seq(SLOT_COUNT, _ => UNSET)

  function NoCaptures(): Slots {
    seq(SLOT_COUNT, _ => UNSET)
  }

  /** Record a position in a slot; a slot number out of range is ignored. */
  function Save(s: Slots, slot: nat, pos: nat): Slots {
    if slot < SLOT_COUNT then s[slot := pos] else s
  }

  /** `max == -1` stands for an unbounded repetition. */
  datatype Ast =
    | Empty
    | Char(ch: Byte)
    | Any
    | Class(members: set<Byte>, negate: bool)
    | Bol
    | Eol
    | WordBoundary(negate: bool)
    | Concat(left: Ast, right: Ast)
    | Alt(left: Ast, right: Ast)
    | Quant(body: Ast, min: nat, max: int, greedy: bool)
    | Group(body: Ast, index: nat)

  /** The capture groups occurring in a pattern. */
  function Groups(r: Ast): set<nat> {
    match r
    case Concat(a, b) => Groups(a) + Groups(b)
    case Alt(a, b) => Groups(a) + Groups(b)
    case Quant(b, _, _, _) => Groups(b)
    case Group(b, k) => Groups(b) + {k}
    case _ => {}
  }

  /** What the parser guarantees: repetition bounds in range, and groups numbered apart from 1 upwards. */
  predicate WellFormed(r: Ast) {
    match r
    case Concat(a, b) => WellFormed(a) && WellFormed(b) && Groups(a) !! Groups(b)
    case Alt(a, b) => WellFormed(a) && WellFormed(b) && Groups(a) !! Groups(b)
    case Quant(b, min, max, _) =>
      && WellFormed(b)
      && min <= MAX_REPEAT
      && (max == -1 || min <= max <= MAX_REPEAT)
    case Group(b, k) => WellFormed(b) && 1 <= k < MAX_CAPTURES && k !in Groups(b)
    case _ => true
  }

  function ToLower(c: Byte): Byte {
    if 65 <= c <= 90 then c + 32 else c
  }

  predicate IsWord(c: Byte) {
    48 <= c <= 57 || 65 <= c <= 90 || 97 <= c <= 122 || c == 95
  }

  predicate CharMatches(expected: Byte, fold: bool, c: Byte) {
    if fold then ToLower(c) == ToLower(expected) else c == expected
  }

  predicate AnyMatches(newline: bool, c: Byte) {
    newline || c != NEWLINE
  }

  predicate ClassMatches(members: set<Byte>, negate: bool, c: Byte) {
    (c in members) != negate
  }

  predicate AtBol(x: Subject, i: nat) {
    i == 0 || (x.flags.multiline && i <= |x.text| && x.text[i - 1] == NEWLINE)
  }

  predicate AtEol(x: Subject, i: nat) {
    i == |x.text| || (x.flags.multiline && i < |x.text| && x.text[i] == NEWLINE)
  }

  predicate AtWordBoundary(x: Subject, i: nat)
    requires i <= |x.text|
  {
    (i > 0 && IsWord(x.text[i - 1])) != (i < |x.text| && IsWord(x.text[i]))
  }

  // ---------- what the tests mean ----------

  /** The bytes of "0-9A-Za-z_", one by one. */
  predicate ListedWord(c: Byte) {
    c in {
      48, 49, 50, 51, 52, 53, 54, 55, 56, 57,
      65, 66, 67, 68, 69, 70, 71, 72, 73, 74, 75, 76, 77, 78, 79, 80, 81, 82, 83, 84, 85, 86, 87, 88, 89, 90,
      95,
      97, 98, 99, 100, 101, 102, 103, 104, 105, 106, 107, 108, 109, 110, 111, 112, 113, 114, 115,
      116, 117, 118, 119, 120, 121, 122}
  }

  /** The word bytes are the listed ones. */
  lemma IsWordMeans(c: Byte)
    ensures IsWord(c) <==> ListedWord(c)
  {
  }

  /** Inside the text a word boundary has a word byte on exactly one side. */
  lemma WordBoundaryInside(x: Subject, i: nat)
    requires 0 < i < |x.text|
    ensures AtWordBoundary(x, i) <==>
      (ListedWord(x.text[i - 1]) && !ListedWord(x.text[i])) || (!ListedWord(x.text[i - 1]) && ListedWord(x.text[i]))
  {
    IsWordMeans(x.text[i - 1]);
    IsWordMeans(x.text[i]);
  }

  /** Beyond the ends of the text there is nothing: as if it were surrounded by bytes that are not word bytes. */
  lemma WordBoundaryAtEnds(x: Subject, i: nat, before: Byte, after: Byte)
    requires i <= |x.text| && !ListedWord(before) && !ListedWord(after)
    ensures AtWordBoundary(x, i) <==> AtWordBoundary(x.(text := [before] + x.text + [after]), i + 1)
  {
    IsWordMeans(before);
    IsWordMeans(after);
    var y := [before] + x.text + [after];
    assert y[i] == (if i == 0 then before else x.text[i - 1]);
    assert y[i + 1] == (if i == |x.text| then after else x.text[i]);
  }

  function Backwards(s: seq<Byte>): seq<Byte> {
    seq(|s|, i requires 0 <= i < |s| => s[|s| - 1 - i])
  }

  /** `$` is `^` of the text read backwards. */
  lemma EolIsBolBackwards(x: Subject, i: nat)
    requires i <= |x.text|
    ensures AtEol(x, i) <==> AtBol(x.(text := Backwards(x.text)), |x.text| - i)
  {
    if i < |x.text| {
      assert Backwards(x.text)[|x.text| - i - 1] == x.text[i];
    }
  }

  /** `^` holds at the start, in multiline mode after every newline, and nowhere else. */
  lemma BolMeans(x: Subject, i: nat)
    requires i <= |x.text|
    ensures !x.flags.multiline ==> (AtBol(x, i) <==> i == 0)
    ensures x.flags.multiline ==> (AtBol(x, i) <==> x.text[..i] == [] || x.text[..i][i - 1] == NEWLINE)
  {
  }

  /** Folding maps exactly the 26 capitals, each to the small letter 32 further on. */
  lemma ToLowerMeans(c: Byte)
    ensures ToLower(c) != c <==> 'A' <= c as char <= 'Z'
    ensures ToLower(c) != c ==> ToLower(c) == c + 32 && 'a' <= ToLower(c) as char <= 'z'
    ensures ToLower(ToLower(c)) == ToLower(c)
  {
  }

  /** Without case two bytes are the same exactly if they are equal or a letter in its two forms. */
  lemma CharMeans(expected: Byte, fold: bool, c: Byte)
    ensures CharMatches(expected, fold, c) <==>
      || c == expected
      || (fold && 'A' <= c as char <= 'Z' && expected == c + 32)
      || (fold && 'A' <= expected as char <= 'Z' && c == expected + 32)
  {
    ToLowerMeans(c);
    ToLowerMeans(expected);
  }

  /** `.` leaves out the newline only, and that only without its flag; a class and its negation share the bytes out. */
  lemma AnyAndClassMean(c: Byte, members: set<Byte>)
    ensures AnyMatches(true, c) && (AnyMatches(false, c) <==> c as char != '\n')
    ensures ClassMatches(members, false, c) != ClassMatches(members, true, c)
    ensures c in members ==> ClassMatches(members, false, c)
    ensures c !in members ==> ClassMatches(members, true, c)
  {
  }

  /** Does one consuming atom accept the byte `c`? */
  predicate AtomMatches(r: Ast, f: Flags, c: Byte)
    requires r.Char? || r.Any? || r.Class?
  {
    match r
    case Char(ch) => CharMatches(ch, f.caseInsensitive, c)
    case Any => AnyMatches(f.dotAll, c)
    case Class(members, negate) => ClassMatches(members, negate, c)
  }

  /** The text interval [i, j) matches the pattern. */
  ghost predicate Lang(r: Ast, x: Subject, i: nat, j: nat)
    decreases r, 0
  {
    match r
    case Empty => i == j <= |x.text|
    case Bol => i == j <= |x.text| && AtBol(x, i)
    case Eol => i == j <= |x.text| && AtEol(x, i)
    case WordBoundary(negate) => i == j <= |x.text| && AtWordBoundary(x, i) != negate
    case Concat(a, b) => exists k: nat :: Lang(a, x, i, k) && Lang(b, x, k, j)
    case Alt(a, b) => Lang(a, x, i, j) || Lang(b, x, i, j)
    case Quant(b, min, max, _) =>
      exists n: nat :: min <= n && (max == -1 || n <= max) && LangRep(b, x, n, i, j)
    case Group(b, _) => Lang(b, x, i, j)
    case _ => i < |x.text| && j == i + 1 && AtomMatches(r, x.flags, x.text[i])
  }

  /** The interval is `n` consecutive matches of the pattern. */
  ghost predicate LangRep(r: Ast, x: Subject, n: nat, i: nat, j: nat)
    decreases r, n + 1
  {
    if n == 0 then i == j <= |x.text|
    else exists k: nat :: Lang(r, x, i, k) && LangRep(r, x, n - 1, k, j)
  }

  /** Matching [i, j) one particular way turns the capture slots `s` into `s'`. */
  ghost predicate Derives(r: Ast, x: Subject, i: nat, s: Slots, j: nat, s': Slots)
    decreases r, 0
  {
    match r
    case Empty => i == j <= |x.text| && s' == s
    case Bol => i == j <= |x.text| && AtBol(x, i) && s' == s
    case Eol => i == j <= |x.text| && AtEol(x, i) && s' == s
    case WordBoundary(negate) => i == j <= |x.text| && AtWordBoundary(x, i) != negate && s' == s
    case Concat(a, b) => exists k: nat, sk: Slots :: Derives(a, x, i, s, k, sk) && Derives(b, x, k, sk, j, s')
    case Alt(a, b) => Derives(a, x, i, s, j, s') || Derives(b, x, i, s, j, s')
    case Quant(b, min, max, _) =>
      exists n: nat :: min <= n && (max == -1 || n <= max) && DerivesRep(b, x, n, i, s, j, s')
    case Group(b, k) =>
      exists sb: Slots :: Derives(b, x, i, Save(s, 2 * k, i), j, sb) && s' == Save(sb, 2 * k + 1, j)
    case _ => i < |x.text| && j == i + 1 && AtomMatches(r, x.flags, x.text[i]) && s' == s
  }

  ghost predicate DerivesRep(r: Ast, x: Subject, n: nat, i: nat, s: Slots, j: nat, s': Slots)
    decreases r, n + 1
  {
    if n == 0 then i == j <= |x.text| && s' == s
    else exists k: nat, sk: Slots :: Derives(r, x, i, s, k, sk) && DerivesRep(r, x, n - 1, k, sk, j, s')
  }

  /** Matches lie inside the text and run forwards. */
  lemma {:induction false} LangBounds(r: Ast, x: Subject, i: nat, j: nat)
    requires Lang(r, x, i, j)
    ensures i <= j <= |x.text|
    decreases r, 0
  {
    match r
    case Concat(a, b) =>
      var k: nat :| Lang(a, x, i, k) && Lang(b, x, k, j);
      LangBounds(a, x, i, k);
      LangBounds(b, x, k, j);
    case Alt(a, b) =>
      if Lang(a, x, i, j) { LangBounds(a, x, i, j); } else { LangBounds(b, x, i, j); }
    case Quant(b, _, _, _) =>
      var n: nat :| LangRep(b, x, n, i, j);
      LangRepBounds(b, x, n, i, j);
    case Group(b, _) => LangBounds(b, x, i, j);
    case _ =>
  }

  lemma {:induction false} LangRepBounds(r: Ast, x: Subject, n: nat, i: nat, j: nat)
    requires LangRep(r, x, n, i, j)
    ensures i <= j <= |x.text|
    decreases r, n + 1
  {
    if n > 0 {
      var k: nat :| Lang(r, x, i, k) && LangRep(r, x, n - 1, k, j);
      LangBounds(r, x, i, k);
      LangRepBounds(r, x, n - 1, k, j);
    }
  }

  // ---------- reading backwards ----------

  function Mirror(r: Ast): Ast {
    match r
    case Bol => Eol
    case Eol => Bol
    case Concat(a, b) => Concat(Mirror(b), Mirror(a))
    case Alt(a, b) => Alt(Mirror(a), Mirror(b))
    case Quant(b, min, max, greedy) => Quant(Mirror(b), min, max, greedy)
    case Group(b, k) => Group(Mirror(b), k)
    case _ => r
  }

  function Mirrored(x: Subject): Subject {
    x.(text := Backwards(x.text))
  }

  lemma {:induction false} MirrorTwice(r: Ast)
    ensures Mirror(Mirror(r)) == r
  {
    match r
    case Concat(a, b) => MirrorTwice(a); MirrorTwice(b);
    case Alt(a, b) => MirrorTwice(a); MirrorTwice(b);
    case Quant(b, _, _, _) => MirrorTwice(b);
    case Group(b, _) => MirrorTwice(b);
    case _ =>
  }

  lemma {:induction false} RepSnoc(r: Ast, x: Subject, n: nat, i: nat, k: nat, j: nat)
    requires LangRep(r, x, n, i, k) && Lang(r, x, k, j)
    ensures LangRep(r, x, n + 1, i, j)
    decreases n
  {
    if n == 0 {
      LangBounds(r, x, k, j);
      assert LangRep(r, x, 0, j, j);
    } else {
      var m: nat :| Lang(r, x, i, m) && LangRep(r, x, n - 1, m, k);
      RepSnoc(r, x, n - 1, m, k, j);
    }
  }

  lemma MirrorAssertion(r: Ast, x: Subject, i: nat)
    requires (r.Bol? || r.Eol? || r.WordBoundary?) && Lang(r, x, i, i)
    ensures i <= |x.text| && Lang(Mirror(r), Mirrored(x), |x.text| - i, |x.text| - i)
  {
    match r
    case Bol =>
      EolIsBolBackwards(Mirrored(x), |x.text| - i);
      assert Backwards(Backwards(x.text)) == x.text;
    case Eol => EolIsBolBackwards(x, i);
    case WordBoundary(_) =>
  }

  lemma {:induction false} LangMirrors(r: Ast, x: Subject, i: nat, j: nat)
    requires Lang(r, x, i, j)
    ensures i <= j <= |x.text| && Lang(Mirror(r), Mirrored(x), |x.text| - j, |x.text| - i)
    decreases r, 0
  {
    LangBounds(r, x, i, j);
    var n := |x.text|;
    match r
    case Bol => MirrorAssertion(r, x, i);
    case Eol => MirrorAssertion(r, x, i);
    case WordBoundary(_) => MirrorAssertion(r, x, i);
    case Concat(a, b) =>
      var k: nat :| Lang(a, x, i, k) && Lang(b, x, k, j);
      LangMirrors(a, x, i, k);
      LangMirrors(b, x, k, j);
    case Alt(a, b) =>
      if Lang(a, x, i, j) { LangMirrors(a, x, i, j); } else { LangMirrors(b, x, i, j); }
    case Quant(b, min, max, _) =>
      var m: nat :| min <= m && (max == -1 || m <= max) && LangRep(b, x, m, i, j);
      LangRepMirrors(b, x, m, i, j);
    case Group(b, _) => LangMirrors(b, x, i, j);
    case _ =>
  }

  lemma {:induction false} LangRepMirrors(r: Ast, x: Subject, m: nat, i: nat, j: nat)
    requires LangRep(r, x, m, i, j)
    ensures i <= j <= |x.text| && LangRep(Mirror(r), Mirrored(x), m, |x.text| - j, |x.text| - i)
    decreases r, m + 1
  {
    if m > 0 {
      var k: nat :| Lang(r, x, i, k) && LangRep(r, x, m - 1, k, j);
      LangMirrors(r, x, i, k);
      LangRepMirrors(r, x, m - 1, k, j);
      RepSnoc(Mirror(r), Mirrored(x), m - 1, |x.text| - j, |x.text| - k, |x.text| - i);
    }
  }

  /** A pattern matches an interval exactly if the pattern read backwards matches it in the text read backwards. */
  lemma LangBackwards(r: Ast, x: Subject, i: nat, j: nat)
    requires i <= j <= |x.text|
    ensures Lang(r, x, i, j) <==> Lang(Mirror(r), Mirrored(x), |x.text| - j, |x.text| - i)
  {
    if Lang(r, x, i, j) {
      LangMirrors(r, x, i, j);
    }
    if Lang(Mirror(r), Mirrored(x), |x.text| - j, |x.text| - i) {
      LangMirrors(Mirror(r), Mirrored(x), |x.text| - j, |x.text| - i);
      MirrorTwice(r);
      assert Mirrored(Mirrored(x)).text == x.text;
    }
  }

  /** Forgetting the slots of a derivation leaves a plain match. */
  lemma {:induction false} DerivesLang(r: Ast, x: Subject, i: nat, s: Slots, j: nat, s': Slots)
    requires Derives(r, x, i, s, j, s')
    ensures Lang(r, x, i, j)
    decreases r, 0
  {
    match r
    case Concat(a, b) =>
      var k: nat, sk: Slots :| Derives(a, x, i, s, k, sk) && Derives(b, x, k, sk, j, s');
      DerivesLang(a, x, i, s, k, sk);
      DerivesLang(b, x, k, sk, j, s');
    case Alt(a, b) =>
      if Derives(a, x, i, s, j, s') { DerivesLang(a, x, i, s, j, s'); } else { DerivesLang(b, x, i, s, j, s'); }
    case Quant(b, min, max, _) =>
      var n: nat :| min <= n && (max == -1 || n <= max) && DerivesRep(b, x, n, i, s, j, s');
      DerivesRepLang(b, x, n, i, s, j, s');
    case Group(b, k) =>
      var sb: Slots :| Derives(b, x, i, Save(s, 2 * k, i), j, sb) && s' == Save(sb, 2 * k + 1, j);
      DerivesLang(b, x, i, Save(s, 2 * k, i), j, sb);
    case _ =>
  }

  lemma {:induction false} DerivesRepLang(r: Ast, x: Subject, n: nat, i: nat, s: Slots, j: nat, s': Slots)
    requires DerivesRep(r, x, n, i, s, j, s')
    ensures LangRep(r, x, n, i, j)
    decreases r, n + 1
  {
    if n > 0 {
      var k: nat, sk: Slots :| Derives(r, x, i, s, k, sk) && DerivesRep(r, x, n - 1, k, sk, j, s');
      DerivesLang(r, x, i, s, k, sk);
      DerivesRepLang(r, x, n - 1, k, sk, j, s');
    }
  }

  /** Every plain match is some derivation, whatever the slots held before. */
  lemma {:induction false} LangDerives(r: Ast, x: Subject, i: nat, s: Slots, j: nat) returns (s': Slots)
    requires Lang(r, x, i, j)
    ensures Derives(r, x, i, s, j, s')
    decreases r, 0
  {
    s' := s;
    match r
    case Concat(a, b) =>
      var k: nat :| Lang(a, x, i, k) && Lang(b, x, k, j);
      var sk := LangDerives(a, x, i, s, k);
      s' := LangDerives(b, x, k, sk, j);
    case Alt(a, b) =>
      if Lang(a, x, i, j) { s' := LangDerives(a, x, i, s, j); } else { s' := LangDerives(b, x, i, s, j); }
    case Quant(b, min, max, _) =>
      var n: nat :| min <= n && (max == -1 || n <= max) && LangRep(b, x, n, i, j);
      s' := LangRepDerives(b, x, n, i, s, j);
    case Group(b, k) =>
      var sb := LangDerives(b, x, i, Save(s, 2 * k, i), j);
      s' := Save(sb, 2 * k + 1, j);
    case _ =>
  }

  lemma {:induction false} LangRepDerives(r: Ast, x: Subject, n: nat, i: nat, s: Slots, j: nat) returns (s': Slots)
    requires LangRep(r, x, n, i, j)
    ensures DerivesRep(r, x, n, i, s, j, s')
    decreases r, n + 1
  {
    s' := s;
    if n > 0 {
      var k: nat :| Lang(r, x, i, k) && LangRep(r, x, n - 1, k, j);
      var sk := LangDerives(r, x, i, s, k);
      s' := LangRepDerives(r, x, n - 1, k, sk, j);
    }
  }

  /** The compile-time test for patterns that can only match at the start of the text. */
  predicate AnchoredStart(r: Ast) {
    match r
    case Bol => true
    case Concat(a, _) => AnchoredStart(a)
    case Group(b, _) => AnchoredStart(b)
    case _ => false
  }

  /** Outside multiline mode a pattern that passes the test matches only at position 0. */
  lemma {:induction false} AnchoredMatchesStart(r: Ast, x: Subject, i: nat, j: nat)
    requires AnchoredStart(r) && !x.flags.multiline
    requires Lang(r, x, i, j)
    ensures i == 0
  {
    match r
    case Bol =>
    case Concat(a, b) =>
      var k: nat :| Lang(a, x, i, k) && Lang(b, x, k, j);
      AnchoredMatchesStart(a, x, i, k);
    case Group(b, _) => AnchoredMatchesStart(b, x, i, j);
  }

  /** Group `k` wraps the pattern `b` somewhere inside `r`. */
  ghost predicate HasGroup(r: Ast, k: nat, b: Ast) {
    match r
    case Concat(p, q) => HasGroup(p, k, b) || HasGroup(q, k, b)
    case Alt(p, q) => HasGroup(p, k, b) || HasGroup(q, k, b)
    case Quant(p, _, _, _) => HasGroup(p, k, b)
    case Group(p, m) => (m == k && p == b) || HasGroup(p, k, b)
    case _ => false
  }

  /** Capture `k` is unset, or it is an interval that the body of group `k` of `root` matches. */
  ghost predicate GenuineCapture(root: Ast, x: Subject, k: nat, s: Slots)
    requires k < MAX_CAPTURES
  {
    (s[2 * k] == UNSET && s[2 * k + 1] == UNSET) ||
    (0 <= s[2 * k] <= s[2 * k + 1] <= |x.text| &&
     exists b: Ast :: HasGroup(root, k, b) && Lang(b, x, s[2 * k], s[2 * k + 1]))
  }

  /** A pattern that does not contain group `k` leaves both of its slots alone. */
  lemma {:induction false} SlotsUntouched(r: Ast, x: Subject, i: nat, s: Slots, j: nat, s': Slots, k: nat)
    requires Derives(r, x, i, s, j, s') && k < MAX_CAPTURES && k !in Groups(r)
    ensures s'[2 * k] == s[2 * k] && s'[2 * k + 1] == s[2 * k + 1]
    decreases r, 0
  {
    match r
    case Concat(a, b) =>
      var m: nat, sm: Slots :| Derives(a, x, i, s, m, sm) && Derives(b, x, m, sm, j, s');
      SlotsUntouched(a, x, i, s, m, sm, k);
      SlotsUntouched(b, x, m, sm, j, s', k);
    case Alt(a, b) =>
      if Derives(a, x, i, s, j, s') { SlotsUntouched(a, x, i, s, j, s', k); }
      else { SlotsUntouched(b, x, i, s, j, s', k); }
    case Quant(b, _, _, _) =>
      var n: nat :| DerivesRep(b, x, n, i, s, j, s');
      SlotsUntouchedRep(b, x, n, i, s, j, s', k);
    case Group(b, g) =>
      var sb: Slots :| Derives(b, x, i, Save(s, 2 * g, i), j, sb) && s' == Save(sb, 2 * g + 1, j);
      SlotsUntouched(b, x, i, Save(s, 2 * g, i), j, sb, k);
    case _ =>
  }

  lemma {:induction false} SlotsUntouchedRep(r: Ast, x: Subject, n: nat, i: nat, s: Slots, j: nat, s': Slots, k: nat)
    requires DerivesRep(r, x, n, i, s, j, s') && k < MAX_CAPTURES && k !in Groups(r)
    ensures s'[2 * k] == s[2 * k] && s'[2 * k + 1] == s[2 * k + 1]
    decreases r, n + 1
  {
    if n > 0 {
      var m: nat, sm: Slots :| Derives(r, x, i, s, m, sm) && DerivesRep(r, x, n - 1, m, sm, j, s');
      SlotsUntouched(r, x, i, s, m, sm, k);
      SlotsUntouchedRep(r, x, n - 1, m, sm, j, s', k);
    }
  }

  /** Every group of `r` is a group of `root`, with the same body. */
  ghost predicate SubPattern(r: Ast, root: Ast) {
    forall k: nat, b: Ast :: HasGroup(r, k, b) ==> HasGroup(root, k, b)
  }

  /** A derivation keeps every capture genuine: unset, or an interval matched by the body of its own group. */
  lemma {:induction false} CapturesGenuine(root: Ast, r: Ast, x: Subject, i: nat, s: Slots, j: nat, s': Slots, k: nat)
    requires WellFormed(r) && SubPattern(r, root)
    requires Derives(r, x, i, s, j, s') && k < MAX_CAPTURES && GenuineCapture(root, x, k, s)
    ensures GenuineCapture(root, x, k, s')
    decreases r, 0
  {
    hide HasGroup;
    hide SubPattern;
    hide Lang;
    SubParts(r, root);
    match r
    case Concat(a, b) =>
      var m: nat, sm: Slots :| Derives(a, x, i, s, m, sm) && Derives(b, x, m, sm, j, s');
      CapturesGenuine(root, a, x, i, s, m, sm, k);
      CapturesGenuine(root, b, x, m, sm, j, s', k);
    case Alt(a, b) =>
      if Derives(a, x, i, s, j, s') { CapturesGenuine(root, a, x, i, s, j, s', k); }
      else { CapturesGenuine(root, b, x, i, s, j, s', k); }
    case Quant(b, _, _, _) =>
      var n: nat :| DerivesRep(b, x, n, i, s, j, s');
      CapturesGenuineRep(root, b, x, n, i, s, j, s', k);
    case Group(b, g) =>
      var sb: Slots :| Derives(b, x, i, Save(s, 2 * g, i), j, sb) && s' == Save(sb, 2 * g + 1, j);
      if k == g {
        OwnCapture(root, b, x, i, s, j, sb, k);
      } else {
        CapturesGenuine(root, b, x, i, Save(s, 2 * g, i), j, sb, k);
      }
    case _ =>
  }

  lemma SubParts(r: Ast, root: Ast)
    requires SubPattern(r, root)
    ensures r.Concat? || r.Alt? ==> SubPattern(r.left, root) && SubPattern(r.right, root)
    ensures r.Quant? || r.Group? ==> SubPattern(r.body, root)
  {
  }

  /** A group's own capture is the stretch its body has just matched. */
  lemma OwnCapture(root: Ast, b: Ast, x: Subject, i: nat, s: Slots, j: nat, sb: Slots, k: nat)
    requires WellFormed(Group(b, k)) && SubPattern(Group(b, k), root) && k < MAX_CAPTURES
    requires Derives(b, x, i, Save(s, 2 * k, i), j, sb)
    ensures GenuineCapture(root, x, k, Save(sb, 2 * k + 1, j))
  {
    hide Derives;
    hide Lang;
    SlotsUntouched(b, x, i, Save(s, 2 * k, i), j, sb, k);
    DerivesLang(b, x, i, Save(s, 2 * k, i), j, sb);
    LangBounds(b, x, i, j);
    assert HasGroup(Group(b, k), k, b);
  }

  lemma {:induction false} CapturesGenuineRep(root: Ast, r: Ast, x: Subject, n: nat, i: nat, s: Slots, j: nat,
                                              s': Slots, k: nat)
    requires WellFormed(r) && SubPattern(r, root)
    requires DerivesRep(r, x, n, i, s, j, s') && k < MAX_CAPTURES && GenuineCapture(root, x, k, s)
    ensures GenuineCapture(root, x, k, s')
    decreases r, n + 1
  {
    if n > 0 {
      var m: nat, sm: Slots :| Derives(r, x, i, s, m, sm) && DerivesRep(r, x, n - 1, m, sm, j, s');
      CapturesGenuine(root, r, x, i, s, m, sm, k);
      CapturesGenuineRep(root, r, x, n - 1, m, sm, j, s', k);
    }
  }

  // ---------- captures that are set ----------

  /** Every match of the pattern passes through group `k`. */
  predicate Certain(r: Ast, k: nat) {
    match r
    case Concat(a, b) => Certain(a, k) || Certain(b, k)
    case Alt(a, b) => Certain(a, k) && Certain(b, k)
    case Quant(b, min, _, _) => min >= 1 && Certain(b, k)
    case Group(b, m) => m == k || Certain(b, k)
    case _ => false
  }

  lemma {:induction false} CertainInside(r: Ast, k: nat)
    requires Certain(r, k)
    ensures k in Groups(r)
  {
    match r
    case Concat(a, b) => if Certain(a, k) { CertainInside(a, k); } else { CertainInside(b, k); }
    case Alt(a, b) => CertainInside(a, k);
    case Quant(b, _, _, _) => CertainInside(b, k);
    case Group(b, m) => if m != k { CertainInside(b, k); }
  }

  lemma DerivesBounds(r: Ast, x: Subject, i: nat, s: Slots, j: nat, s': Slots)
    requires Derives(r, x, i, s, j, s')
    ensures i <= j <= |x.text|
  {
    hide Derives;
    hide Lang;
    DerivesLang(r, x, i, s, j, s');
    LangBounds(r, x, i, j);
  }

  /** A group that every match passes through is captured, as an interval inside the match. */
  lemma {:induction false} CertainIsSet(r: Ast, x: Subject, i: nat, s: Slots, j: nat, s': Slots, k: nat)
    requires Derives(r, x, i, s, j, s') && WellFormed(r) && Certain(r, k) && k < MAX_CAPTURES
    ensures i <= s'[2 * k] <= s'[2 * k + 1] <= j
    decreases r, 0
  {
    DerivesBounds(r, x, i, s, j, s');
    match r
    case Concat(a, b) =>
      var m: nat, sm: Slots :| Derives(a, x, i, s, m, sm) && Derives(b, x, m, sm, j, s');
      DerivesBounds(a, x, i, s, m, sm);
      DerivesBounds(b, x, m, sm, j, s');
      if Certain(b, k) {
        CertainIsSet(b, x, m, sm, j, s', k);
      } else {
        CertainIsSet(a, x, i, s, m, sm, k);
        CertainInside(a, k);
        SlotsUntouched(b, x, m, sm, j, s', k);
      }
    case Alt(a, b) =>
      if Derives(a, x, i, s, j, s') { CertainIsSet(a, x, i, s, j, s', k); } else { CertainIsSet(b, x, i, s, j, s', k); }
    case Quant(b, min, _, _) =>
      var n: nat :| min <= n && DerivesRep(b, x, n, i, s, j, s');
      CertainRep(b, x, n, i, s, j, s', k);
    case Group(b, m) =>
      var sb: Slots :| Derives(b, x, i, Save(s, 2 * m, i), j, sb) && s' == Save(sb, 2 * m + 1, j);
      if m == k {
        SlotsUntouched(b, x, i, Save(s, 2 * m, i), j, sb, k);
      } else {
        CertainIsSet(b, x, i, Save(s, 2 * m, i), j, sb, k);
      }
  }

  lemma {:induction false} CertainRep(r: Ast, x: Subject, n: nat, i: nat, s: Slots, j: nat, s': Slots, k: nat)
    requires DerivesRep(r, x, n, i, s, j, s') && WellFormed(r) && Certain(r, k) && k < MAX_CAPTURES && n > 0
    ensures i <= s'[2 * k] <= s'[2 * k + 1] <= j
    decreases r, n + 1
  {
    var m: nat, sm: Slots :| Derives(r, x, i, s, m, sm) && DerivesRep(r, x, n - 1, m, sm, j, s');
    CertainIsSet(r, x, i, s, m, sm, k);
    DerivesBounds(r, x, i, s, m, sm);
    if n > 1 {
      CertainRep(r, x, n - 1, m, sm, j, s', k);
    }
  }
}
