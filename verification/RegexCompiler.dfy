/**
 The bytecode, the compiler that lowers a pattern to it, and the proof that the code of a pattern
 does exactly what the pattern derives.

 `Has` says what the compiler emits for a pattern placed at a given address. The compiler itself, which appends
 instructions and patches branch targets afterwards, is the class in `RegexCodeGen`.
 */
module RegexCompiler {
  import opened RegexSyntax

  datatype Inst =
    | IChar(ch: Byte, fold: bool)
    | IAny(newline: bool)
    | IClass(members: set<Byte>, negate: bool)
    | IBol
    | IEol
    | IWordBoundary(negate: bool)
    | IJump(target: nat)
    | ISplit(target1: nat, target2: nat)
    | ISave(slot: nat)
    | IMatch

  // -------------------------------------------------------------------------
  // What is emitted
  // -------------------------------------------------------------------------

  /** The length of n parts of the same length. */
  function Times(n: nat, part: nat): nat {
    if n == 0 then 0 else part + Times(n - 1, part)
  }

  lemma TimesOne(part: nat)
    ensures Times(1, part) == part
  {
    assert Times(0, part) == 0;
  }

  lemma {:induction false} TimesSplit(i: nat, n: nat, part: nat)
    requires i < n
    ensures Times(n, part) == Times(i, part) + part + Times(n - i - 1, part)
  {
    if i > 0 {
      TimesSplit(i - 1, n - 1, part);
    }
  }

  /** Number of instructions a pattern compiles to. */
  function Size(r: Ast): nat
    decreases r, 0
  {
    match r
    case Empty => 0
    case Concat(a, b) => Size(a) + Size(b)
    case Alt(a, b) => Size(a) + Size(b) + 2
    case Group(b, _) => Size(b) + 2
    case Quant(b, min, max, _) =>
      if min == 0 && max == 1 then 1 + Size(b)
      else if min == 0 && max == -1 then 2 + Size(b)
      else if min == 1 && max == -1 then 1 + Size(b)
      else Times(min, Size(b)) + TailSize(b, min, max)
    case _ => 1
  }

  /** Instructions of a counted repetition after its `min` mandatory copies. */
  function TailSize(b: Ast, min: nat, max: int): nat
    decreases b, 1
  {
    if max == -1 then 2 + Size(b)
    else if max > min then Times(max - min, 1 + Size(b))
    else 0
  }

  /** A two-way branch that prefers the body when greedy and the exit otherwise. */
  function Branch(greedy: bool, body: nat, exit: nat): Inst {
    if greedy then ISplit(body, exit) else ISplit(exit, body)
  }

  function Atom(r: Ast, f: Flags): Inst
    requires r.Char? || r.Any? || r.Class? || r.Bol? || r.Eol? || r.WordBoundary?
  {
    match r
    case Char(ch) => IChar(ch, f.caseInsensitive)
    case Any => IAny(f.dotAll)
    case Class(members, negate) => IClass(members, negate)
    case Bol => IBol
    case Eol => IEol
    case WordBoundary(negate) => IWordBoundary(negate)
  }

  /** The program holds the code of `r` at addresses [base, base + Size(r)). */
  ghost predicate Has(r: Ast, p: seq<Inst>, f: Flags, base: nat)
    decreases r, 1, 0
  {
    base + Size(r) <= |p| && HasBody(r, p, f, base)
  }

  ghost predicate HasBody(r: Ast, p: seq<Inst>, f: Flags, base: nat)
    requires base + Size(r) <= |p|
    decreases r, 0, 0
  {
    match r
    case Empty => true
    case Concat(a, b) => Has(a, p, f, base) && Has(b, p, f, base + Size(a))
    case Alt(a, b) =>
      && p[base] == ISplit(base + 1, base + 2 + Size(a))
      && Has(a, p, f, base + 1)
      && p[base + 1 + Size(a)] == IJump(base + Size(r))
      && Has(b, p, f, base + 2 + Size(a))
    case Group(b, k) =>
      && p[base] == ISave(2 * k)
      && Has(b, p, f, base + 1)
      && p[base + 1 + Size(b)] == ISave(2 * k + 1)
    case Quant(b, min, max, greedy) =>
      if min == 0 && max == 1 then p[base] == Branch(greedy, base + 1, base + Size(r)) && Has(b, p, f, base + 1)
      else if min == 0 && max == -1 then HasLoop(b, p, f, greedy, base)
      else if min == 1 && max == -1 then Has(b, p, f, base) && p[base + Size(b)] == Branch(greedy, base, base + Size(r))
      else HasCopies(b, p, f, min, base) && HasTail(b, p, f, min, max, greedy, base + Times(min, Size(b)))
    case _ => p[base] == Atom(r, f)
  }

  /** Zero or more iterations of `b`. */
  ghost predicate HasLoop(b: Ast, p: seq<Inst>, f: Flags, greedy: bool, base: nat)
    decreases b, 2, 0
  {
    && base + 2 + Size(b) <= |p|
    && p[base] == Branch(greedy, base + 1, base + 2 + Size(b))
    && Has(b, p, f, base + 1)
    && p[base + 1 + Size(b)] == IJump(base)
  }

  /** `n` copies of `b`, one after the other. */
  ghost predicate HasCopies(b: Ast, p: seq<Inst>, f: Flags, n: nat, base: nat)
    decreases b, 2, n
  {
    n == 0 || (Has(b, p, f, base) && HasCopies(b, p, f, n - 1, base + Size(b)))
  }

  /** `n` optional copies of `b`; each may be declined by leaving for `exit`. */
  ghost predicate HasOptions(b: Ast, p: seq<Inst>, f: Flags, greedy: bool, n: nat, base: nat, exit: nat)
    decreases b, 2, n
  {
    n == 0 ||
    (&& base < |p|
     && p[base] == Branch(greedy, base + 1, exit)
     && Has(b, p, f, base + 1)
     && HasOptions(b, p, f, greedy, n - 1, base + 1 + Size(b), exit))
  }

  /** What follows the `min` mandatory copies of a counted repetition. */
  ghost predicate HasTail(b: Ast, p: seq<Inst>, f: Flags, min: nat, max: int, greedy: bool, base: nat)
    decreases b, 3, 0
  {
    if max == -1 then HasLoop(b, p, f, greedy, base)
    else if max > min then HasOptions(b, p, f, greedy, max - min, base, base + Times(max - min, 1 + Size(b)))
    else true
  }

  // -------------------------------------------------------------------------
  // Execution
  // -------------------------------------------------------------------------

  /** A thread of the machine: program counter, text position and capture slots. */
  datatype Conf = Conf(pc: nat, pos: nat, slots: Slots)

  /** Does a consuming instruction accept this byte? */
  predicate Consumes(inst: Inst, c: Byte) {
    match inst
    case IChar(ch, fold) => CharMatches(ch, fold, c)
    case IAny(newline) => AnyMatches(newline, c)
    case IClass(members, negate) => ClassMatches(members, negate, c)
    case _ => false
  }

  /** One instruction executed by one thread. */
  ghost predicate Step(p: seq<Inst>, x: Subject, a: Conf, b: Conf) {
    a.pc < |p| && a.pos <= |x.text| &&
    match p[a.pc]
    case IJump(target) => b == a.(pc := target)
    case ISplit(t1, t2) => b == a.(pc := t1) || b == a.(pc := t2)
    case ISave(slot) => b == Conf(a.pc + 1, a.pos, Save(a.slots, slot, a.pos))
    case IBol => AtBol(x, a.pos) && b == a.(pc := a.pc + 1)
    case IEol => AtEol(x, a.pos) && b == a.(pc := a.pc + 1)
    case IWordBoundary(negate) => AtWordBoundary(x, a.pos) != negate && b == a.(pc := a.pc + 1)
    case IMatch => false
    case _ => a.pos < |x.text| && Consumes(p[a.pc], x.text[a.pos]) && b == Conf(a.pc + 1, a.pos + 1, a.slots)
  }

  /** `n` steps from `a` to `b`, every one of them taken from an address in [lo, hi). */
  ghost predicate Runs(p: seq<Inst>, x: Subject, lo: nat, hi: nat, n: nat, a: Conf, b: Conf)
    decreases n
  {
    if n == 0 then a == b
    else lo <= a.pc < hi && exists m: Conf :: Step(p, x, a, m) && Runs(p, x, lo, hi, n - 1, m, b)
  }

  lemma {:induction false} RunsCompose(p: seq<Inst>, x: Subject, lo: nat, hi: nat, n: nat, a: Conf, m: nat, b: Conf,
                                       c: Conf)
    requires Runs(p, x, lo, hi, n, a, b) && Runs(p, x, lo, hi, m, b, c)
    ensures Runs(p, x, lo, hi, n + m, a, c)
    decreases n
  {
    if n > 0 {
      var d: Conf :| Step(p, x, a, d) && Runs(p, x, lo, hi, n - 1, d, b);
      RunsCompose(p, x, lo, hi, n - 1, d, m, b, c);
      assert n + m - 1 == n - 1 + m;
    }
  }

  lemma {:induction false} RunsWiden(p: seq<Inst>, x: Subject, lo: nat, hi: nat, lo': nat, hi': nat, n: nat, a: Conf,
                                     b: Conf)
    requires lo' <= lo && hi <= hi' && Runs(p, x, lo, hi, n, a, b)
    ensures Runs(p, x, lo', hi', n, a, b)
    decreases n
  {
    if n > 0 {
      var d: Conf :| Step(p, x, a, d) && Runs(p, x, lo, hi, n - 1, d, b);
      RunsWiden(p, x, lo, hi, lo', hi', n - 1, d, b);
    }
  }

  /** One step, seen as a run. */
  lemma RunsOne(p: seq<Inst>, x: Subject, lo: nat, hi: nat, a: Conf, b: Conf)
    requires lo <= a.pc < hi && Step(p, x, a, b)
    ensures Runs(p, x, lo, hi, 1, a, b)
  {
    assert Runs(p, x, lo, hi, 0, b, b);
  }

  /** A run out of [lo, hi) splits where it first leaves the smaller window [lo', hi'). */
  lemma {:induction false} FirstExit(p: seq<Inst>, x: Subject, lo: nat, hi: nat, lo': nat, hi': nat, n: nat, a: Conf,
                                     b: Conf)
    returns (k: nat, c: Conf)
    requires lo <= lo' && hi' <= hi && a.pos <= |x.text|
    requires Runs(p, x, lo, hi, n, a, b) && !(lo <= b.pc < hi)
    ensures k <= n && Runs(p, x, lo', hi', k, a, c) && !(lo' <= c.pc < hi')
    ensures Runs(p, x, lo, hi, n - k, c, b) && c.pos <= |x.text|
    ensures lo' <= a.pc < hi' ==> k > 0
    decreases n
  {
    if !(lo' <= a.pc < hi') {
      k, c := 0, a;
    } else {
      var d: Conf :| Step(p, x, a, d) && Runs(p, x, lo, hi, n - 1, d, b);
      k, c := FirstExit(p, x, lo, hi, lo', hi', n - 1, d, b);
      k := k + 1;
    }
  }

  /** The first step of a run that still has to leave its window. */
  lemma FirstStep(p: seq<Inst>, x: Subject, lo: nat, hi: nat, n: nat, a: Conf, b: Conf) returns (c: Conf)
    requires Runs(p, x, lo, hi, n, a, b) && lo <= a.pc < hi && !(lo <= b.pc < hi)
    ensures n > 0 && Step(p, x, a, c) && Runs(p, x, lo, hi, n - 1, c, b) && c.pos <= |x.text|
  {
    c :| Step(p, x, a, c) && Runs(p, x, lo, hi, n - 1, c, b);
  }

  /** A window that can only be left for its upper end is left at most once. */
  lemma LastPart(p: seq<Inst>, x: Subject, lo: nat, hi: nat, n: nat, a: Conf, b: Conf)
    requires Runs(p, x, lo, hi, n, a, b) && a.pc == hi
    ensures n == 0 && a == b
  {
  }

  // -------------------------------------------------------------------------
  // Runs of compiled code are derivations
  // -------------------------------------------------------------------------

  // What the code of a compound pattern consists of.

  lemma HasUnfold(r: Ast, p: seq<Inst>, f: Flags, base: nat)
    ensures Has(r, p, f, base) <==> base + Size(r) <= |p| && HasBody(r, p, f, base)
  {
    hide HasBody;
    hide Size;
  }

  lemma ConcatSize(l: Ast, q: Ast)
    ensures Size(Concat(l, q)) == Size(l) + Size(q)
  {
  }

  lemma ConcatCode(l: Ast, q: Ast, p: seq<Inst>, f: Flags, base: nat)
    ensures Size(Concat(l, q)) == Size(l) + Size(q)
    ensures Has(Concat(l, q), p, f, base) <==> Has(l, p, f, base) && Has(q, p, f, base + Size(l))
  {
    hide Has;
    hide Size;
    ConcatSize(l, q);
    HasUnfold(Concat(l, q), p, f, base);
    HasUnfold(q, p, f, base + Size(l));
  }

  lemma AltCode(l: Ast, q: Ast, p: seq<Inst>, f: Flags, base: nat)
    ensures Size(Alt(l, q)) == 2 + Size(l) + Size(q)
    ensures Has(Alt(l, q), p, f, base) <==>
      (&& base + 2 + Size(l) + Size(q) <= |p|
       && p[base] == ISplit(base + 1, base + 2 + Size(l)) && Has(l, p, f, base + 1)
       && p[base + 1 + Size(l)] == IJump(base + 2 + Size(l) + Size(q)) && Has(q, p, f, base + 2 + Size(l)))
  {
    hide Has;
    hide Size;
    AltSize(l, q);
    HasUnfold(Alt(l, q), p, f, base);
  }

  lemma AltSize(l: Ast, q: Ast)
    ensures Size(Alt(l, q)) == 2 + Size(l) + Size(q)
  {
  }

  lemma GroupCode(g: Ast, m: nat, p: seq<Inst>, f: Flags, base: nat)
    ensures Size(Group(g, m)) == 2 + Size(g)
    ensures Has(Group(g, m), p, f, base) <==>
      (&& base + 2 + Size(g) <= |p|
       && p[base] == ISave(2 * m) && Has(g, p, f, base + 1) && p[base + 1 + Size(g)] == ISave(2 * m + 1))
  {
    hide Has;
    HasUnfold(Group(g, m), p, f, base);
  }

  lemma QuantCode(g: Ast, min: nat, max: int, greedy: bool, p: seq<Inst>, f: Flags, base: nat)
    ensures min == 0 && max == 1 ==>
      && Size(Quant(g, min, max, greedy)) == 1 + Size(g)
      && (Has(Quant(g, min, max, greedy), p, f, base) <==> HasOptions(g, p, f, greedy, 1, base, base + 1 + Size(g)))
    ensures min == 0 && max == -1 ==>
      && Size(Quant(g, min, max, greedy)) == 2 + Size(g)
      && (Has(Quant(g, min, max, greedy), p, f, base) <==> HasLoop(g, p, f, greedy, base))
    ensures min == 1 && max == -1 ==>
      && Size(Quant(g, min, max, greedy)) == 1 + Size(g)
      && (Has(Quant(g, min, max, greedy), p, f, base) <==>
            && base + Size(g) < |p|
            && Has(g, p, f, base) && p[base + Size(g)] == Branch(greedy, base, base + 1 + Size(g)))
    ensures !(min == 0 && max == 1) && !(min <= 1 && max == -1) ==>
      && Size(Quant(g, min, max, greedy)) == Times(min, Size(g)) + TailSize(g, min, max)
      && (Has(Quant(g, min, max, greedy), p, f, base) <==>
            && base + Times(min, Size(g)) + TailSize(g, min, max) <= |p|
            && HasCopies(g, p, f, min, base) && HasTail(g, p, f, min, max, greedy, base + Times(min, Size(g))))
  {
    hide Has;
    hide HasLoop;
    hide HasCopies;
    hide HasTail;
    hide HasOptions;
    hide TailSize;
    hide Times;
    hide Size;
    QuantSize(g, min, max, greedy);
    HasUnfold(Quant(g, min, max, greedy), p, f, base);
    if min == 0 && max == 1 {
      OptionalCode(g, greedy, p, f, base);
    } else if min == 0 && max == -1 {
      LoopFits(g, greedy, p, f, base);
    }
  }

  lemma LoopFits(g: Ast, greedy: bool, p: seq<Inst>, f: Flags, base: nat)
    ensures HasLoop(g, p, f, greedy, base) ==> base + 2 + Size(g) <= |p|
  {
    hide Has;
    hide Size;
  }

  lemma OptionalCode(g: Ast, greedy: bool, p: seq<Inst>, f: Flags, base: nat)
    ensures Has(Quant(g, 0, 1, greedy), p, f, base) <==> HasOptions(g, p, f, greedy, 1, base, base + 1 + Size(g))
  {
    hide Has;
    hide HasOptions;
    hide Size;
    QuantSize(g, 0, 1, greedy);
    HasUnfold(Quant(g, 0, 1, greedy), p, f, base);
    HasUnfold(g, p, f, base + 1);
    OptionsUnfold(g, p, f, greedy, 1, base, base + 1 + Size(g));
    OptionsNone(g, p, f, greedy, base + 1 + Size(g), base + 1 + Size(g));
  }

  lemma OptionsNone(g: Ast, p: seq<Inst>, f: Flags, greedy: bool, base: nat, exit: nat)
    ensures HasOptions(g, p, f, greedy, 0, base, exit)
  {
    hide Has;
  }

  lemma QuantSize(g: Ast, min: nat, max: int, greedy: bool)
    ensures Size(Quant(g, min, max, greedy)) ==
      if min == 0 && max == 1 then 1 + Size(g)
      else if min == 0 && max == -1 then 2 + Size(g)
      else if min == 1 && max == -1 then 1 + Size(g)
      else Times(min, Size(g)) + TailSize(g, min, max)
  {
    hide Times;
    hide TailSize;
  }

  lemma OptionsUnfold(g: Ast, p: seq<Inst>, f: Flags, greedy: bool, n: nat, base: nat, exit: nat)
    requires n > 0
    ensures HasOptions(g, p, f, greedy, n, base, exit) <==>
      (&& base < |p| && p[base] == Branch(greedy, base + 1, exit) && Has(g, p, f, base + 1)
       && HasOptions(g, p, f, greedy, n - 1, base + 1 + Size(g), exit))
  {
    hide Has;
    hide Size;
  }

  lemma DerivesConcat(l: Ast, q: Ast, x: Subject, i: nat, s: Slots, k: nat, sk: Slots, j: nat, s': Slots)
    requires Derives(l, x, i, s, k, sk) && Derives(q, x, k, sk, j, s')
    ensures Derives(Concat(l, q), x, i, s, j, s')
  {
  }

  lemma DerivesGroup(g: Ast, m: nat, x: Subject, i: nat, s: Slots, j: nat, s': Slots)
    requires Derives(g, x, i, Save(s, 2 * m, i), j, s')
    ensures Derives(Group(g, m), x, i, s, j, Save(s', 2 * m + 1, j))
  {
  }

  lemma DerivesAlt(l: Ast, q: Ast, x: Subject, i: nat, s: Slots, j: nat, s': Slots)
    requires Derives(l, x, i, s, j, s') || Derives(q, x, i, s, j, s')
    ensures Derives(Alt(l, q), x, i, s, j, s')
  {
  }

  lemma DerivesQuant(g: Ast, min: nat, max: int, greedy: bool, x: Subject, reps: nat, i: nat, s: Slots, j: nat,
                     s': Slots)
    requires min <= reps && (max == -1 || reps <= max) && DerivesRep(g, x, reps, i, s, j, s')
    ensures Derives(Quant(g, min, max, greedy), x, i, s, j, s')
  {
  }

  /** Whoever enters the code of `r` at its start leaves it at its end, having derived `r`. */
  lemma {:induction false} CodeSound(r: Ast, p: seq<Inst>, x: Subject, base: nat, n: nat, a: Conf, b: Conf)
    requires WellFormed(r) && Has(r, p, x.flags, base)
    requires a.pc == base && a.pos <= |x.text|
    requires Runs(p, x, base, base + Size(r), n, a, b) && !(base <= b.pc < base + Size(r))
    ensures b.pc == base + Size(r) && Derives(r, x, a.pos, a.slots, b.pos, b.slots)
    decreases r, 0, 2
  {
    hide *;
    match r
    case Empty => EmptySound(p, x, base, n, a, b);
    case Concat(l, q) => ConcatSound(l, q, p, x, base, n, a, b);
    case Alt(l, q) => AltSound(l, q, p, x, base, n, a, b);
    case Group(g, m) => GroupSound(g, m, p, x, base, n, a, b);
    case Quant(g, min, max, greedy) => QuantSound(g, min, max, greedy, p, x, base, n, a, b);
    case _ => AtomSound(r, p, x, base, n, a, b);
  }

  lemma {:induction false} EmptySound(p: seq<Inst>, x: Subject, base: nat, n: nat, a: Conf, b: Conf)
    requires WellFormed(Empty) && Has(Empty, p, x.flags, base)
    requires a.pc == base && a.pos <= |x.text|
    requires Runs(p, x, base, base + Size(Empty), n, a, b) && !(base <= b.pc < base + Size(Empty))
    ensures b.pc == base + Size(Empty) && Derives(Empty, x, a.pos, a.slots, b.pos, b.slots)
    decreases Empty, 0, 1
  {
    hide Runs;
    LastPart(p, x, base, base, n, a, b);
  }

  lemma {:induction false} ConcatSound(l: Ast, q: Ast, p: seq<Inst>, x: Subject, base: nat, n: nat, a: Conf, b: Conf)
    requires WellFormed(Concat(l, q)) && Has(Concat(l, q), p, x.flags, base)
    requires a.pc == base && a.pos <= |x.text|
    requires Runs(p, x, base, base + Size(Concat(l, q)), n, a, b) && !(base <= b.pc < base + Size(Concat(l, q)))
    ensures b.pc == base + Size(Concat(l, q)) && Derives(Concat(l, q), x, a.pos, a.slots, b.pos, b.slots)
    decreases Concat(l, q), 0, 1
  {
    hide Has;
    hide Size;
    hide Runs;
    hide Derives;
    hide DerivesRep;
    ConcatCode(l, q, p, x.flags, base);
    var mid, end := base + Size(l), base + Size(l) + Size(q);
    var k, c := FirstExit(p, x, base, end, base, mid, n, a, b);
    CodeSound(l, p, x, base, k, a, c);
    var k2, d := FirstExit(p, x, base, end, mid, end, n - k, c, b);
    CodeSound(q, p, x, mid, k2, c, d);
    LastPart(p, x, base, end, n - k - k2, d, b);
    DerivesConcat(l, q, x, a.pos, a.slots, c.pos, c.slots, b.pos, b.slots);
  }

  lemma {:induction false} AltSound(l: Ast, q: Ast, p: seq<Inst>, x: Subject, base: nat, n: nat, a: Conf, b: Conf)
    requires WellFormed(Alt(l, q)) && Has(Alt(l, q), p, x.flags, base)
    requires a.pc == base && a.pos <= |x.text|
    requires Runs(p, x, base, base + Size(Alt(l, q)), n, a, b) && !(base <= b.pc < base + Size(Alt(l, q)))
    ensures b.pc == base + Size(Alt(l, q)) && Derives(Alt(l, q), x, a.pos, a.slots, b.pos, b.slots)
    decreases Alt(l, q), 0, 1
  {
    hide Has;
    hide Size;
    hide Runs;
    hide Derives;
    hide DerivesRep;
    AltCode(l, q, p, x.flags, base);
    var end := base + 2 + Size(l) + Size(q);
    var c := FirstStep(p, x, base, end, n, a, b);
    if c.pc == base + 1 {
      var k, d := FirstExit(p, x, base, end, base + 1, base + 1 + Size(l), n - 1, c, b);
      CodeSound(l, p, x, base + 1, k, c, d);
      var e := FirstStep(p, x, base, end, n - 1 - k, d, b);
      LastPart(p, x, base, end, n - 1 - k - 1, e, b);
    } else {
      var k, d := FirstExit(p, x, base, end, base + 2 + Size(l), end, n - 1, c, b);
      CodeSound(q, p, x, base + 2 + Size(l), k, c, d);
      LastPart(p, x, base, end, n - 1 - k, d, b);
    }
    DerivesAlt(l, q, x, a.pos, a.slots, b.pos, b.slots);
  }

  lemma {:induction false} GroupSound(g: Ast, m: nat, p: seq<Inst>, x: Subject, base: nat, n: nat, a: Conf, b: Conf)
    requires WellFormed(Group(g, m)) && Has(Group(g, m), p, x.flags, base)
    requires a.pc == base && a.pos <= |x.text|
    requires Runs(p, x, base, base + Size(Group(g, m)), n, a, b) && !(base <= b.pc < base + Size(Group(g, m)))
    ensures b.pc == base + Size(Group(g, m)) && Derives(Group(g, m), x, a.pos, a.slots, b.pos, b.slots)
    decreases Group(g, m), 0, 1
  {
    hide Has;
    hide Size;
    hide Runs;
    hide Derives;
    hide DerivesRep;
    GroupCode(g, m, p, x.flags, base);
    var end := base + 2 + Size(g);
    var c := FirstStep(p, x, base, end, n, a, b);
    var k, d := FirstExit(p, x, base, end, base + 1, base + 1 + Size(g), n - 1, c, b);
    CodeSound(g, p, x, base + 1, k, c, d);
    var e := FirstStep(p, x, base, end, n - 1 - k, d, b);
    LastPart(p, x, base, end, n - 1 - k - 1, e, b);
    DerivesGroup(g, m, x, a.pos, a.slots, d.pos, d.slots);
  }

  lemma {:induction false} QuantSound(g: Ast, min: nat, max: int, greedy: bool, p: seq<Inst>, x: Subject, base: nat,
                                      n: nat, a: Conf, b: Conf)
    requires WellFormed(Quant(g, min, max, greedy)) && Has(Quant(g, min, max, greedy), p, x.flags, base)
    requires a.pc == base && a.pos <= |x.text|
    requires Runs(p, x, base, base + Size(Quant(g, min, max, greedy)), n, a, b) &&
      !(base <= b.pc < base + Size(Quant(g, min, max, greedy)))
    ensures b.pc == base + Size(Quant(g, min, max, greedy)) &&
      Derives(Quant(g, min, max, greedy), x, a.pos, a.slots, b.pos, b.slots)
    decreases Quant(g, min, max, greedy), 0, 1
  {
    hide Has;
    hide Size;
    hide Runs;
    hide Derives;
    hide DerivesRep;
    QuantCode(g, min, max, greedy, p, x.flags, base);
    var reps: nat;
    if min == 0 && max == 1 {
      reps := OptionsSound(g, greedy, 1, p, x, base, base + 1 + Size(g), n, a, b);
    } else if min == 0 && max == -1 {
      reps := LoopSound(g, greedy, p, x, base, n, a, b);
    } else if min == 1 && max == -1 {
      reps := PlusSound(g, greedy, p, x, base, n, a, b);
    } else {
      reps := CountedSound(g, min, max, greedy, p, x, base, n, a, b);
    }
    DerivesQuant(g, min, max, greedy, x, reps, a.pos, a.slots, b.pos, b.slots);
  }

  lemma AtomSound(r: Ast, p: seq<Inst>, x: Subject, base: nat, n: nat, a: Conf, b: Conf)
    requires r.Char? || r.Any? || r.Class? || r.Bol? || r.Eol? || r.WordBoundary?
    requires Has(r, p, x.flags, base)
    requires a.pc == base && a.pos <= |x.text|
    requires Runs(p, x, base, base + Size(r), n, a, b) && !(base <= b.pc < base + Size(r))
    ensures b.pc == base + Size(r) && Derives(r, x, a.pos, a.slots, b.pos, b.slots)
  {
    hide Runs;
    var c := FirstStep(p, x, base, base + 1, n, a, b);
    LastPart(p, x, base, base + 1, n - 1, c, b);
  }

  lemma {:induction false} CountedSound(g: Ast, min: nat, max: int, greedy: bool, p: seq<Inst>, x: Subject, base: nat,
                                        n: nat, a: Conf, b: Conf)
    returns (reps: nat)
    requires WellFormed(g) && (max == -1 || min <= max)
    requires HasCopies(g, p, x.flags, min, base) && HasTail(g, p, x.flags, min, max, greedy, base + Times(min, Size(g)))
    requires a.pc == base && a.pos <= |x.text|
    requires Runs(p, x, base, base + Times(min, Size(g)) + TailSize(g, min, max), n, a, b)
    requires !(base <= b.pc < base + Times(min, Size(g)) + TailSize(g, min, max))
    ensures b.pc == base + Times(min, Size(g)) + TailSize(g, min, max)
    ensures min <= reps && (max == -1 || reps <= max)
    ensures DerivesRep(g, x, reps, a.pos, a.slots, b.pos, b.slots)
    decreases g, 3, 0
  {
    hide *;
    var mid, end := base + Times(min, Size(g)), base + Times(min, Size(g)) + TailSize(g, min, max);
    var k, c := FirstExit(p, x, base, end, base, mid, n, a, b);
    CopiesSound(g, min, p, x, base, k, a, c);
    var k2, d := FirstExit(p, x, base, end, mid, end, n - k, c, b);
    var m := TailSound(g, min, max, greedy, p, x, mid, k2, c, d);
    LastPart(p, x, base, end, n - k - k2, d, b);
    RepCompose(g, x, min, a.pos, a.slots, m, c.pos, c.slots, d.pos, d.slots);
    reps := min + m;
  }

  lemma {:induction false} TailSound(g: Ast, min: nat, max: int, greedy: bool, p: seq<Inst>, x: Subject, mid: nat,
                                     n: nat, a: Conf, b: Conf)
    returns (reps: nat)
    requires WellFormed(g) && (max == -1 || min <= max) && HasTail(g, p, x.flags, min, max, greedy, mid)
    requires a.pc == mid && a.pos <= |x.text|
    requires Runs(p, x, mid, mid + TailSize(g, min, max), n, a, b) && !(mid <= b.pc < mid + TailSize(g, min, max))
    ensures b.pc == mid + TailSize(g, min, max) && (max == -1 || min + reps <= max)
    ensures DerivesRep(g, x, reps, a.pos, a.slots, b.pos, b.slots)
    decreases g, 2, 0
  {
    hide Runs;
    hide Has;
    hide Size;
    hide Times;
    hide WellFormed;
    hide HasLoop;
    hide HasOptions;
    hide DerivesRep;
    reps := 0;
    if max == -1 {
      reps := LoopSound(g, greedy, p, x, mid, n, a, b);
    } else if max > min {
      reps := OptionsSound(g, greedy, max - min, p, x, mid, mid + TailSize(g, min, max), n, a, b);
    } else {
      LastPart(p, x, mid, mid, n, a, b);
      RepNone(g, x, a.pos, a.slots);
    }
  }

  /** Repetitions compose. */
  lemma {:induction false} RepCompose(g: Ast, x: Subject, n: nat, i: nat, s: Slots, m: nat, k: nat, sk: Slots, j: nat,
                                      s': Slots)
    requires DerivesRep(g, x, n, i, s, k, sk) && DerivesRep(g, x, m, k, sk, j, s')
    ensures DerivesRep(g, x, n + m, i, s, j, s')
    decreases n
  {
    if n > 0 {
      var h: nat, sh: Slots :| Derives(g, x, i, s, h, sh) && DerivesRep(g, x, n - 1, h, sh, k, sk);
      RepCompose(g, x, n - 1, h, sh, m, k, sk, j, s');
      assert n + m - 1 == n - 1 + m;
    }
  }

  lemma RepNone(g: Ast, x: Subject, i: nat, s: Slots)
    requires i <= |x.text|
    ensures DerivesRep(g, x, 0, i, s, i, s)
  {
  }

  lemma RepMore(g: Ast, x: Subject, n: nat, i: nat, s: Slots, k: nat, sk: Slots, j: nat, s': Slots)
    requires Derives(g, x, i, s, k, sk) && DerivesRep(g, x, n, k, sk, j, s')
    ensures DerivesRep(g, x, n + 1, i, s, j, s')
  {
    hide Derives;
  }

  lemma {:induction false} CopiesSound(g: Ast, m: nat, p: seq<Inst>, x: Subject, base: nat, n: nat, a: Conf, b: Conf)
    requires WellFormed(g) && HasCopies(g, p, x.flags, m, base)
    requires a.pc == base && a.pos <= |x.text|
    requires Runs(p, x, base, base + Times(m, Size(g)), n, a, b) && !(base <= b.pc < base + Times(m, Size(g)))
    ensures b.pc == base + Times(m, Size(g)) && DerivesRep(g, x, m, a.pos, a.slots, b.pos, b.slots)
    decreases g, 1, m
  {
    hide Runs;
    hide Has;
    hide WellFormed;
    hide Size;
    hide Derives;
    hide DerivesRep;
    if m == 0 {
      LastPart(p, x, base, base, n, a, b);
      RepNone(g, x, a.pos, a.slots);
    } else {
      var mid, end := base + Size(g), base + Times(m, Size(g));
      assert end == mid + Times(m - 1, Size(g));
      var k, c := FirstExit(p, x, base, end, base, mid, n, a, b);
      CodeSound(g, p, x, base, k, a, c);
      var k2, d := FirstExit(p, x, base, end, mid, end, n - k, c, b);
      CopiesSound(g, m - 1, p, x, mid, k2, c, d);
      LastPart(p, x, base, end, n - k - k2, d, b);
      RepMore(g, x, m - 1, a.pos, a.slots, c.pos, c.slots, b.pos, b.slots);
    }
  }

  lemma {:induction false} OptionsSound(g: Ast, greedy: bool, m: nat, p: seq<Inst>, x: Subject, base: nat, end: nat,
                                        n: nat, a: Conf, b: Conf)
    returns (reps: nat)
    requires WellFormed(g) && end == base + Times(m, 1 + Size(g)) && HasOptions(g, p, x.flags, greedy, m, base, end)
    requires a.pc == base && a.pos <= |x.text|
    requires Runs(p, x, base, end, n, a, b) && !(base <= b.pc < end)
    ensures b.pc == end && reps <= m && DerivesRep(g, x, reps, a.pos, a.slots, b.pos, b.slots)
    decreases g, 1, m
  {
    hide Runs;
    hide Has;
    hide WellFormed;
    hide Size;
    hide Derives;
    hide DerivesRep;
    reps := 0;
    if m == 0 {
      LastPart(p, x, base, end, n, a, b);
      RepNone(g, x, a.pos, a.slots);
    } else {
      var next := base + 1 + Size(g);
      assert end == next + Times(m - 1, 1 + Size(g));
      var c := FirstStep(p, x, base, end, n, a, b);
      if c.pc == end {
        LastPart(p, x, base, end, n - 1, c, b);
        RepNone(g, x, a.pos, a.slots);
      } else {
        var k, d := FirstExit(p, x, base, end, base + 1, next, n - 1, c, b);
        CodeSound(g, p, x, base + 1, k, c, d);
        var k2, e := FirstExit(p, x, base, end, next, end, n - 1 - k, d, b);
        reps := OptionsSound(g, greedy, m - 1, p, x, next, end, k2, d, e);
        LastPart(p, x, base, end, n - 1 - k - k2, e, b);
        RepMore(g, x, reps, a.pos, a.slots, d.pos, d.slots, b.pos, b.slots);
        reps := reps + 1;
      }
    }
  }

  lemma {:induction false} LoopSound(g: Ast, greedy: bool, p: seq<Inst>, x: Subject, base: nat, n: nat, a: Conf,
                                     b: Conf)
    returns (reps: nat)
    requires WellFormed(g) && HasLoop(g, p, x.flags, greedy, base)
    requires a.pc == base && a.pos <= |x.text|
    requires Runs(p, x, base, base + 2 + Size(g), n, a, b) && !(base <= b.pc < base + 2 + Size(g))
    ensures b.pc == base + 2 + Size(g) && DerivesRep(g, x, reps, a.pos, a.slots, b.pos, b.slots)
    decreases g, 1, n
  {
    hide Runs;
    hide Has;
    hide WellFormed;
    hide Size;
    hide Derives;
    hide DerivesRep;
    reps := 0;
    var end := base + 2 + Size(g);
    var c := FirstStep(p, x, base, end, n, a, b);
    if c.pc == end {
      LastPart(p, x, base, end, n - 1, c, b);
      RepNone(g, x, a.pos, a.slots);
    } else {
      var k, d := FirstExit(p, x, base, end, base + 1, base + 1 + Size(g), n - 1, c, b);
      CodeSound(g, p, x, base + 1, k, c, d);
      var e := FirstStep(p, x, base, end, n - 1 - k, d, b);
      reps := LoopSound(g, greedy, p, x, base, n - 1 - k - 1, e, b);
      RepMore(g, x, reps, a.pos, a.slots, d.pos, d.slots, b.pos, b.slots);
      reps := reps + 1;
    }
  }

  lemma {:induction false} PlusSound(g: Ast, greedy: bool, p: seq<Inst>, x: Subject, base: nat, n: nat, a: Conf,
                                     b: Conf)
    returns (reps: nat)
    requires WellFormed(g) && base + Size(g) < |p|
    requires Has(g, p, x.flags, base) && p[base + Size(g)] == Branch(greedy, base, base + 1 + Size(g))
    requires a.pc == base && a.pos <= |x.text|
    requires Runs(p, x, base, base + 1 + Size(g), n, a, b) && !(base <= b.pc < base + 1 + Size(g))
    ensures b.pc == base + 1 + Size(g) && reps > 0 && DerivesRep(g, x, reps, a.pos, a.slots, b.pos, b.slots)
    decreases g, 1, n
  {
    hide Runs;
    hide Has;
    hide WellFormed;
    hide Size;
    hide Derives;
    hide DerivesRep;
    var end := base + 1 + Size(g);
    var k, c := FirstExit(p, x, base, end, base, base + Size(g), n, a, b);
    CodeSound(g, p, x, base, k, a, c);
    var d := FirstStep(p, x, base, end, n - k, c, b);
    if d.pc == end {
      LastPart(p, x, base, end, n - k - 1, d, b);
      RepNone(g, x, b.pos, b.slots);
      reps := 0;
    } else {
      reps := PlusSound(g, greedy, p, x, base, n - k - 1, d, b);
    }
    RepMore(g, x, reps, a.pos, a.slots, c.pos, c.slots, b.pos, b.slots);
    reps := reps + 1;
  }

  // -------------------------------------------------------------------------
  // Derivations are runs of compiled code
  // -------------------------------------------------------------------------

  /** Two runs in sub-windows make one run in the whole window. */
  lemma RunsJoin(p: seq<Inst>, x: Subject, lo: nat, hi: nat, lo1: nat, hi1: nat, lo2: nat, hi2: nat, n: nat, m: nat,
                 a: Conf, b: Conf, c: Conf)
    requires lo <= lo1 && hi1 <= hi && lo <= lo2 && hi2 <= hi
    requires Runs(p, x, lo1, hi1, n, a, b) && Runs(p, x, lo2, hi2, m, b, c)
    ensures Runs(p, x, lo, hi, n + m, a, c)
  {
    hide Runs;
    RunsWiden(p, x, lo1, hi1, lo, hi, n, a, b);
    RunsWiden(p, x, lo2, hi2, lo, hi, m, b, c);
    RunsCompose(p, x, lo, hi, n, a, m, b, c);
  }

  /** A step followed by a run. */
  lemma RunsCons(p: seq<Inst>, x: Subject, lo: nat, hi: nat, lo1: nat, hi1: nat, n: nat, a: Conf, b: Conf, c: Conf)
    requires lo <= a.pc < hi && lo <= lo1 && hi1 <= hi
    requires Step(p, x, a, b) && Runs(p, x, lo1, hi1, n, b, c)
    ensures Runs(p, x, lo, hi, n + 1, a, c)
  {
    hide Runs;
    RunsOne(p, x, lo, hi, a, b);
    RunsJoin(p, x, lo, hi, lo, hi, lo1, hi1, 1, n, a, b, c);
  }

  /** A run followed by a step. */
  lemma RunsSnoc(p: seq<Inst>, x: Subject, lo: nat, hi: nat, lo1: nat, hi1: nat, n: nat, a: Conf, b: Conf, c: Conf)
    requires lo <= b.pc < hi && lo <= lo1 && hi1 <= hi
    requires Runs(p, x, lo1, hi1, n, a, b) && Step(p, x, b, c)
    ensures Runs(p, x, lo, hi, n + 1, a, c)
  {
    hide Runs;
    RunsOne(p, x, lo, hi, b, c);
    RunsJoin(p, x, lo, hi, lo1, hi1, lo, hi, n, 1, a, b, c);
  }

  lemma DerivesRepBounds(r: Ast, x: Subject, n: nat, i: nat, s: Slots, j: nat, s': Slots)
    requires DerivesRep(r, x, n, i, s, j, s')
    ensures i <= j <= |x.text|
  {
    hide *;
    DerivesRepLang(r, x, n, i, s, j, s');
    LangRepBounds(r, x, n, i, j);
  }

  lemma DerivesConcatElim(l: Ast, q: Ast, x: Subject, i: nat, s: Slots, j: nat, s': Slots) returns (k: nat, sk: Slots)
    requires Derives(Concat(l, q), x, i, s, j, s')
    ensures Derives(l, x, i, s, k, sk) && Derives(q, x, k, sk, j, s')
  {
    k, sk :| Derives(l, x, i, s, k, sk) && Derives(q, x, k, sk, j, s');
  }

  lemma DerivesAltElim(l: Ast, q: Ast, x: Subject, i: nat, s: Slots, j: nat, s': Slots)
    requires Derives(Alt(l, q), x, i, s, j, s')
    ensures Derives(l, x, i, s, j, s') || Derives(q, x, i, s, j, s')
  {
  }

  lemma DerivesGroupElim(g: Ast, m: nat, x: Subject, i: nat, s: Slots, j: nat, s': Slots) returns (sb: Slots)
    requires Derives(Group(g, m), x, i, s, j, s')
    ensures Derives(g, x, i, Save(s, 2 * m, i), j, sb) && s' == Save(sb, 2 * m + 1, j)
  {
    sb :| Derives(g, x, i, Save(s, 2 * m, i), j, sb) && s' == Save(sb, 2 * m + 1, j);
  }

  lemma DerivesQuantElim(g: Ast, min: nat, max: int, greedy: bool, x: Subject, i: nat, s: Slots, j: nat, s': Slots)
      returns (reps: nat)
    requires Derives(Quant(g, min, max, greedy), x, i, s, j, s')
    ensures min <= reps && (max == -1 || reps <= max) && DerivesRep(g, x, reps, i, s, j, s')
  {
    reps :| min <= reps && (max == -1 || reps <= max) && DerivesRep(g, x, reps, i, s, j, s');
  }

  /** Whatever `r` derives, its code can run. */
  lemma {:induction false} CodeComplete(r: Ast, p: seq<Inst>, x: Subject, base: nat, i: nat, s: Slots, j: nat,
                                        s': Slots)
    returns (n: nat)
    requires Has(r, p, x.flags, base) && Derives(r, x, i, s, j, s')
    ensures Runs(p, x, base, base + Size(r), n, Conf(base, i, s), Conf(base + Size(r), j, s'))
    decreases r, 0, 2
  {
    hide *;
    match r
    case Empty => EmptyComplete(p, x, base, i, s, j, s'); n := 0;
    case Concat(l, q) => n := ConcatComplete(l, q, p, x, base, i, s, j, s');
    case Alt(l, q) => n := AltComplete(l, q, p, x, base, i, s, j, s');
    case Group(g, m) => n := GroupComplete(g, m, p, x, base, i, s, j, s');
    case Quant(g, min, max, greedy) => n := QuantComplete(g, min, max, greedy, p, x, base, i, s, j, s');
    case _ => AtomComplete(r, p, x, base, i, s, j, s'); n := 1;
  }

  lemma EmptyComplete(p: seq<Inst>, x: Subject, base: nat, i: nat, s: Slots, j: nat, s': Slots)
    requires Derives(Empty, x, i, s, j, s')
    ensures Runs(p, x, base, base + Size(Empty), 0, Conf(base, i, s), Conf(base + Size(Empty), j, s'))
  {
  }

  lemma AtomComplete(r: Ast, p: seq<Inst>, x: Subject, base: nat, i: nat, s: Slots, j: nat, s': Slots)
    requires r.Char? || r.Any? || r.Class? || r.Bol? || r.Eol? || r.WordBoundary?
    requires Has(r, p, x.flags, base) && Derives(r, x, i, s, j, s')
    ensures Runs(p, x, base, base + Size(r), 1, Conf(base, i, s), Conf(base + Size(r), j, s'))
  {
    hide Runs;
    RunsOne(p, x, base, base + 1, Conf(base, i, s), Conf(base + 1, j, s'));
  }

  lemma {:induction false} ConcatComplete(l: Ast, q: Ast, p: seq<Inst>, x: Subject, base: nat, i: nat, s: Slots,
                                          j: nat, s': Slots)
    returns (n: nat)
    requires Has(Concat(l, q), p, x.flags, base) && Derives(Concat(l, q), x, i, s, j, s')
    ensures Runs(p, x, base, base + Size(Concat(l, q)), n, Conf(base, i, s), Conf(base + Size(Concat(l, q)), j, s'))
    decreases Concat(l, q), 0, 1
  {
    hide *;
    ConcatCode(l, q, p, x.flags, base);
    var mid, end := base + Size(l), base + Size(l) + Size(q);
    var k, sk := DerivesConcatElim(l, q, x, i, s, j, s');
    var n1 := CodeComplete(l, p, x, base, i, s, k, sk);
    var n2 := CodeComplete(q, p, x, mid, k, sk, j, s');
    RunsJoin(p, x, base, end, base, mid, mid, end, n1, n2, Conf(base, i, s), Conf(mid, k, sk), Conf(end, j, s'));
    n := n1 + n2;
  }

  lemma {:induction false} AltComplete(l: Ast, q: Ast, p: seq<Inst>, x: Subject, base: nat, i: nat, s: Slots, j: nat,
                                       s': Slots)
    returns (n: nat)
    requires Has(Alt(l, q), p, x.flags, base) && Derives(Alt(l, q), x, i, s, j, s')
    ensures Runs(p, x, base, base + Size(Alt(l, q)), n, Conf(base, i, s), Conf(base + Size(Alt(l, q)), j, s'))
    decreases Alt(l, q), 0, 1
  {
    hide Has;
    hide Size;
    hide Runs;
    hide Derives;
    hide DerivesRep;
    AltCode(l, q, p, x.flags, base);
    var mid, end := base + 1 + Size(l), base + 2 + Size(l) + Size(q);
    DerivesBounds(Alt(l, q), x, i, s, j, s');
    DerivesAltElim(l, q, x, i, s, j, s');
    if Derives(l, x, i, s, j, s') {
      n := CodeComplete(l, p, x, base + 1, i, s, j, s');
      RunsCons(p, x, base, mid, base + 1, mid, n, Conf(base, i, s), Conf(base + 1, i, s), Conf(mid, j, s'));
      RunsSnoc(p, x, base, end, base, mid, n + 1, Conf(base, i, s), Conf(mid, j, s'), Conf(end, j, s'));
      n := n + 2;
    } else {
      n := CodeComplete(q, p, x, mid + 1, i, s, j, s');
      RunsCons(p, x, base, end, mid + 1, end, n, Conf(base, i, s), Conf(mid + 1, i, s), Conf(end, j, s'));
      n := n + 1;
    }
  }

  lemma {:induction false} GroupComplete(g: Ast, m: nat, p: seq<Inst>, x: Subject, base: nat, i: nat, s: Slots,
                                         j: nat, s': Slots)
    returns (n: nat)
    requires Has(Group(g, m), p, x.flags, base) && Derives(Group(g, m), x, i, s, j, s')
    ensures Runs(p, x, base, base + Size(Group(g, m)), n, Conf(base, i, s), Conf(base + Size(Group(g, m)), j, s'))
    decreases Group(g, m), 0, 1
  {
    hide Has;
    hide Size;
    hide Runs;
    hide Derives;
    hide DerivesRep;
    GroupCode(g, m, p, x.flags, base);
    var sb := DerivesGroupElim(g, m, x, i, s, j, s');
    DerivesBounds(g, x, i, Save(s, 2 * m, i), j, sb);
    var last, end := base + 1 + Size(g), base + 2 + Size(g);
    n := CodeComplete(g, p, x, base + 1, i, Save(s, 2 * m, i), j, sb);
    RunsCons(p, x, base, last, base + 1, last, n,
             Conf(base, i, s), Conf(base + 1, i, Save(s, 2 * m, i)), Conf(last, j, sb));
    RunsSnoc(p, x, base, end, base, last, n + 1, Conf(base, i, s), Conf(last, j, sb), Conf(end, j, s'));
    n := n + 2;
  }

  lemma {:induction false} QuantComplete(g: Ast, min: nat, max: int, greedy: bool, p: seq<Inst>, x: Subject,
                                         base: nat, i: nat, s: Slots, j: nat, s': Slots)
    returns (n: nat)
    requires Has(Quant(g, min, max, greedy), p, x.flags, base) && Derives(Quant(g, min, max, greedy), x, i, s, j, s')
    ensures Runs(p, x, base, base + Size(Quant(g, min, max, greedy)), n,
                 Conf(base, i, s), Conf(base + Size(Quant(g, min, max, greedy)), j, s'))
    decreases Quant(g, min, max, greedy), 0, 1
  {
    hide *;
    QuantCode(g, min, max, greedy, p, x.flags, base);
    var reps := DerivesQuantElim(g, min, max, greedy, x, i, s, j, s');
    if min == 0 && max == 1 {
      TimesOne(1 + Size(g));
      n := OptionsComplete(g, greedy, 1, p, x, base, base + 1 + Size(g), reps, i, s, j, s');
    } else if min == 0 && max == -1 {
      n := LoopComplete(g, greedy, p, x, base, reps, i, s, j, s');
    } else if min == 1 && max == -1 {
      n := PlusComplete(g, greedy, p, x, base, reps, i, s, j, s');
    } else {
      n := CountedComplete(g, min, max, greedy, p, x, base, reps, i, s, j, s');
    }
  }

  /** The first repetitions of a longer repetition. */
  lemma {:induction false} RepSplit(g: Ast, x: Subject, n: nat, m: nat, i: nat, s: Slots, j: nat, s': Slots)
      returns (k: nat, sk: Slots)
    requires DerivesRep(g, x, n + m, i, s, j, s')
    ensures DerivesRep(g, x, n, i, s, k, sk) && DerivesRep(g, x, m, k, sk, j, s')
    decreases n
  {
    hide Derives;
    if n == 0 {
      hide DerivesRep;
      DerivesRepBounds(g, x, m, i, s, j, s');
      RepNone(g, x, i, s);
      k, sk := i, s;
    } else {
      var h: nat, sh: Slots :| Derives(g, x, i, s, h, sh) && DerivesRep(g, x, n + m - 1, h, sh, j, s');
      hide DerivesRep;
      assert n + m - 1 == n - 1 + m;
      k, sk := RepSplit(g, x, n - 1, m, h, sh, j, s');
      RepMore(g, x, n - 1, i, s, h, sh, k, sk);
    }
  }

  lemma {:induction false} CountedComplete(g: Ast, min: nat, max: int, greedy: bool, p: seq<Inst>, x: Subject,
                                           base: nat, reps: nat, i: nat, s: Slots, j: nat, s': Slots)
    returns (n: nat)
    requires HasCopies(g, p, x.flags, min, base) && HasTail(g, p, x.flags, min, max, greedy, base + Times(min, Size(g)))
    requires min <= reps && (max == -1 || reps <= max) && DerivesRep(g, x, reps, i, s, j, s')
    ensures Runs(p, x, base, base + Times(min, Size(g)) + TailSize(g, min, max), n,
                 Conf(base, i, s), Conf(base + Times(min, Size(g)) + TailSize(g, min, max), j, s'))
    decreases g, 3, 0
  {
    hide *;
    var mid, end := base + Times(min, Size(g)), base + Times(min, Size(g)) + TailSize(g, min, max);
    var k, sk := RepSplit(g, x, min, reps - min, i, s, j, s');
    var n1 := CopiesComplete(g, min, p, x, base, i, s, k, sk);
    var n2 := TailComplete(g, min, max, greedy, p, x, mid, reps - min, k, sk, j, s');
    RunsJoin(p, x, base, end, base, mid, mid, end, n1, n2, Conf(base, i, s), Conf(mid, k, sk), Conf(end, j, s'));
    n := n1 + n2;
  }

  lemma {:induction false} TailComplete(g: Ast, min: nat, max: int, greedy: bool, p: seq<Inst>, x: Subject, mid: nat,
                                        reps: nat, i: nat, s: Slots, j: nat, s': Slots)
    returns (n: nat)
    requires HasTail(g, p, x.flags, min, max, greedy, mid)
    requires (max == -1 || min + reps <= max) && DerivesRep(g, x, reps, i, s, j, s')
    ensures Runs(p, x, mid, mid + TailSize(g, min, max), n, Conf(mid, i, s), Conf(mid + TailSize(g, min, max), j, s'))
    decreases g, 2, 0
  {
    hide Has;
    hide HasLoop;
    hide HasOptions;
    if max == -1 {
      n := LoopComplete(g, greedy, p, x, mid, reps, i, s, j, s');
    } else if max > min {
      n := OptionsComplete(g, greedy, max - min, p, x, mid, mid + TailSize(g, min, max), reps, i, s, j, s');
    } else {
      n := 0;
    }
  }

  lemma {:induction false} RepUncons(g: Ast, x: Subject, n: nat, i: nat, s: Slots, j: nat, s': Slots)
      returns (k: nat, sk: Slots)
    requires n > 0 && DerivesRep(g, x, n, i, s, j, s')
    ensures Derives(g, x, i, s, k, sk) && DerivesRep(g, x, n - 1, k, sk, j, s')
    ensures i <= k <= j <= |x.text|
  {
    hide Derives;
    k, sk :| Derives(g, x, i, s, k, sk) && DerivesRep(g, x, n - 1, k, sk, j, s');
    hide DerivesRep;
    DerivesBounds(g, x, i, s, k, sk);
    DerivesRepBounds(g, x, n - 1, k, sk, j, s');
  }

  lemma {:induction false} CopiesComplete(g: Ast, m: nat, p: seq<Inst>, x: Subject, base: nat, i: nat, s: Slots,
                                          j: nat, s': Slots)
    returns (n: nat)
    requires HasCopies(g, p, x.flags, m, base) && DerivesRep(g, x, m, i, s, j, s')
    ensures Runs(p, x, base, base + Times(m, Size(g)), n, Conf(base, i, s), Conf(base + Times(m, Size(g)), j, s'))
    decreases g, 1, m
  {
    hide Has;
    hide Size;
    hide Derives;
    if m == 0 {
      n := 0;
    } else {
      hide DerivesRep;
      hide Runs;
      var mid, end := base + Size(g), base + Times(m, Size(g));
      assert end == mid + Times(m - 1, Size(g));
      var k, sk := RepUncons(g, x, m, i, s, j, s');
      var n1 := CodeComplete(g, p, x, base, i, s, k, sk);
      var n2 := CopiesComplete(g, m - 1, p, x, mid, k, sk, j, s');
      RunsJoin(p, x, base, end, base, mid, mid, end, n1, n2, Conf(base, i, s), Conf(mid, k, sk), Conf(end, j, s'));
      n := n1 + n2;
    }
  }

  lemma {:induction false} OptionsComplete(g: Ast, greedy: bool, m: nat, p: seq<Inst>, x: Subject, base: nat,
                                           end: nat, reps: nat, i: nat, s: Slots, j: nat, s': Slots)
    returns (n: nat)
    requires end == base + Times(m, 1 + Size(g)) && HasOptions(g, p, x.flags, greedy, m, base, end)
    requires reps <= m && DerivesRep(g, x, reps, i, s, j, s')
    ensures Runs(p, x, base, end, n, Conf(base, i, s), Conf(end, j, s'))
    decreases g, 1, m
  {
    hide Has;
    hide HasOptions;
    hide Size;
    hide Derives;
    if m > 0 {
      OptionsUnfold(g, p, x.flags, greedy, m, base, end);
    }
    if m == 0 {
      n := 0;
    } else if reps == 0 {
      hide Runs;
      RunsOne(p, x, base, end, Conf(base, i, s), Conf(end, j, s'));
      n := 1;
    } else {
      hide DerivesRep;
      hide Runs;
      var next := base + 1 + Size(g);
      assert end == next + Times(m - 1, 1 + Size(g));
      var k, sk := RepUncons(g, x, reps, i, s, j, s');
      var n1 := CodeComplete(g, p, x, base + 1, i, s, k, sk);
      var n2 := OptionsComplete(g, greedy, m - 1, p, x, next, end, reps - 1, k, sk, j, s');
      RunsJoin(p, x, base, end, base + 1, next, next, end, n1, n2,
               Conf(base + 1, i, s), Conf(next, k, sk), Conf(end, j, s'));
      RunsCons(p, x, base, end, base, end, n1 + n2, Conf(base, i, s), Conf(base + 1, i, s), Conf(end, j, s'));
      n := n1 + n2 + 1;
    }
  }

  lemma {:induction false} LoopComplete(g: Ast, greedy: bool, p: seq<Inst>, x: Subject, base: nat, reps: nat, i: nat,
                                        s: Slots, j: nat, s': Slots)
    returns (n: nat)
    requires HasLoop(g, p, x.flags, greedy, base) && DerivesRep(g, x, reps, i, s, j, s')
    ensures Runs(p, x, base, base + 2 + Size(g), n, Conf(base, i, s), Conf(base + 2 + Size(g), j, s'))
    decreases g, 1, reps
  {
    hide Has;
    hide Size;
    hide Derives;
    hide Runs;
    var last, end := base + 1 + Size(g), base + 2 + Size(g);
    if reps == 0 {
      RunsOne(p, x, base, end, Conf(base, i, s), Conf(end, j, s'));
      n := 1;
    } else {
      hide DerivesRep;
      var k, sk := RepUncons(g, x, reps, i, s, j, s');
      var n1 := CodeComplete(g, p, x, base + 1, i, s, k, sk);
      var n2 := LoopComplete(g, greedy, p, x, base, reps - 1, k, sk, j, s');
      RunsCons(p, x, base, last, base + 1, last, n1, Conf(base, i, s), Conf(base + 1, i, s), Conf(last, k, sk));
      RunsSnoc(p, x, base, end, base, last, n1 + 1, Conf(base, i, s), Conf(last, k, sk), Conf(base, k, sk));
      RunsCompose(p, x, base, end, n1 + 2, Conf(base, i, s), n2, Conf(base, k, sk), Conf(end, j, s'));
      n := n1 + 2 + n2;
    }
  }

  lemma {:induction false} PlusComplete(g: Ast, greedy: bool, p: seq<Inst>, x: Subject, base: nat, reps: nat, i: nat,
                                        s: Slots, j: nat, s': Slots)
    returns (n: nat)
    requires base + Size(g) < |p|
    requires Has(g, p, x.flags, base) && p[base + Size(g)] == Branch(greedy, base, base + 1 + Size(g))
    requires reps > 0 && DerivesRep(g, x, reps, i, s, j, s')
    ensures Runs(p, x, base, base + 1 + Size(g), n, Conf(base, i, s), Conf(base + 1 + Size(g), j, s'))
    decreases g, 1, reps
  {
    hide Has;
    hide Size;
    hide Derives;
    hide Runs;
    var last, end := base + Size(g), base + 1 + Size(g);
    var k, sk := RepUncons(g, x, reps, i, s, j, s');
    var n1 := CodeComplete(g, p, x, base, i, s, k, sk);
    if reps == 1 {
      RunsSnoc(p, x, base, end, base, last, n1, Conf(base, i, s), Conf(last, k, sk), Conf(end, j, s'));
      n := n1 + 1;
    } else {
      hide DerivesRep;
      var n2 := PlusComplete(g, greedy, p, x, base, reps - 1, k, sk, j, s');
      RunsSnoc(p, x, base, end, base, last, n1, Conf(base, i, s), Conf(last, k, sk), Conf(base, k, sk));
      RunsCompose(p, x, base, end, n1 + 1, Conf(base, i, s), n2, Conf(base, k, sk), Conf(end, j, s'));
      n := n1 + 1 + n2;
    }
  }
}
