/**
 Whole programs: the unanchored search prefix, the pattern between the two saves of capture 0, and
 the final match instruction. The lemmas say which runs of a whole program reach that instruction.
 */
module RegexProgram {
  import opened RegexSyntax
  import opened RegexCompiler
  import opened RegexCodeGen

  datatype Program = Program(insts: seq<Inst>, flags: Flags, exactPc: nat, searchPc: nat)

  const PREFIX_SIZE := 3

  /** Is the search prefix left out for this pattern? */
  predicate Anchored(r: Ast, f: Flags) {
    AnchoredStart(r) && !f.multiline
  }

  /** `re` is the compiled form of the pattern `r`. */
  ghost predicate ProgramOf(re: Program, r: Ast) {
    && WellFormed(r)
    && re.searchPc == 0
    && re.exactPc == (if Anchored(r, re.flags) then 0 else PREFIX_SIZE)
    && Layout(re.insts, re.flags, re.exactPc, r)
    && (!Anchored(r, re.flags) ==>
          re.insts[0] == ISplit(re.exactPc, 1) && re.insts[1] == IAny(true) && re.insts[2] == IJump(0))
  }

  /** The pattern between the two saves of capture 0, closed by the match, from address `e` on. */
  ghost predicate Layout(p: seq<Inst>, f: Flags, e: nat, r: Ast) {
    && |p| == e + Size(r) + 3
    && p[e] == ISave(0)
    && Has(r, p, f, e + 1)
    && p[e + 1 + Size(r)] == ISave(1)
    && p[e + 2 + Size(r)] == IMatch
  }

  method Compile(r: Ast, f: Flags) returns (re: Program)
    requires WellFormed(r)
    ensures ProgramOf(re, r) && re.flags == f
  {
    hide Layout;
    hide WellFormed;
    hide AnchoredStart;
    var cg := new CodeGen();
    var exactPc: nat := 0;
    if !(AnchoredStart(r) && !f.multiline) {
      exactPc := EmitPrefix(cg);
    }
    EmitPattern(cg, r, f);
    re := Program(cg.insts, f, exactPc, 0);
  }

  /** The pattern between the two saves of capture 0, and the match. */
  method EmitPattern(cg: CodeGen, r: Ast, f: Flags)
    requires WellFormed(r)
    modifies cg
    ensures Layout(cg.insts, f, old(|cg.insts|), r) && SameCode(old(cg.insts), cg.insts, 0, old(|cg.insts|))
  {
    hide Has;
    hide Size;
    hide WellFormed;
    ghost var base := |cg.insts|;
    var save0 := cg.Emit(ISave(0));
    cg.CompileNode(r, f);
    ghost var body := cg.insts;
    var save1 := cg.Emit(ISave(1));
    var last := cg.Emit(IMatch);
    HasFrame(r, body, cg.insts, f, base + 1);
  }

  /** The loop in front of an unanchored pattern that skips any number of bytes. */
  method EmitPrefix(cg: CodeGen) returns (exactPc: nat)
    requires cg.insts == []
    modifies cg
    ensures exactPc == PREFIX_SIZE && cg.insts == [ISplit(PREFIX_SIZE, 1), IAny(true), IJump(0)]
  {
    var sPc := cg.Emit(ISplit(0, 0));
    var anyPc := cg.Emit(IAny(true));
    var jPc := cg.Emit(IJump(0));
    exactPc := |cg.insts|;
    cg.Patch(sPc, ISplit(exactPc, anyPc));
  }

  // -------------------------------------------------------------------------
  // Only the last instruction of a program is a match
  // -------------------------------------------------------------------------

  ghost predicate NoMatch(p: seq<Inst>, lo: nat, hi: nat) {
    hi <= |p| && forall k :: lo <= k < hi ==> !p[k].IMatch?
  }

  lemma {:induction false} CodeNoMatch(r: Ast, p: seq<Inst>, f: Flags, base: nat)
    requires Has(r, p, f, base)
    ensures NoMatch(p, base, base + Size(r))
    decreases r, 0, 0
  {
    hide Has;
    hide Size;
    hide HasLoop;
    hide HasOptions;
    hide HasCopies;
    hide HasTail;
    hide TailSize;
    match r
    case Concat(a, b) =>
      ConcatCode(a, b, p, f, base);
      CodeNoMatch(a, p, f, base);
      CodeNoMatch(b, p, f, base + Size(a));
    case Alt(a, b) =>
      AltCode(a, b, p, f, base);
      CodeNoMatch(a, p, f, base + 1);
      CodeNoMatch(b, p, f, base + 2 + Size(a));
    case Group(b, k) =>
      GroupCode(b, k, p, f, base);
      CodeNoMatch(b, p, f, base + 1);
    case Quant(b, min, max, greedy) =>
      QuantCode(b, min, max, greedy, p, f, base);
      if min == 0 && max == 1 {
        HasUnfold(r, p, f, base);
        OptionsNoMatch(b, p, f, greedy, 1, base, base + 1 + Size(b));
      } else if min == 0 && max == -1 {
        LoopNoMatch(b, p, f, greedy, base);
      } else if min == 1 && max == -1 {
        CodeNoMatch(b, p, f, base);
      } else {
        CopiesNoMatch(b, p, f, min, base);
        TailNoMatch(b, p, f, min, max, greedy, base + Times(min, Size(b)));
      }
    case _ => AtomNoMatch(r, p, f, base);
  }

  lemma AtomNoMatch(r: Ast, p: seq<Inst>, f: Flags, base: nat)
    requires !r.Concat? && !r.Alt? && !r.Group? && !r.Quant? && Has(r, p, f, base)
    ensures NoMatch(p, base, base + Size(r))
  {
  }

  lemma {:induction false} LoopNoMatch(b: Ast, p: seq<Inst>, f: Flags, greedy: bool, base: nat)
    requires HasLoop(b, p, f, greedy, base)
    ensures NoMatch(p, base, base + 2 + Size(b))
    decreases b, 1, 0
  {
    hide Has;
    hide Size;
    CodeNoMatch(b, p, f, base + 1);
  }

  lemma {:induction false} CopiesNoMatch(b: Ast, p: seq<Inst>, f: Flags, n: nat, base: nat)
    requires base <= |p| && HasCopies(b, p, f, n, base)
    ensures NoMatch(p, base, base + Times(n, Size(b)))
    decreases b, 1, n
  {
    hide Has;
    hide Size;
    if n > 0 {
      assert Times(n, Size(b)) == Size(b) + Times(n - 1, Size(b));
      CodeNoMatch(b, p, f, base);
      CopiesNoMatch(b, p, f, n - 1, base + Size(b));
    }
  }

  lemma {:induction false} OptionsNoMatch(b: Ast, p: seq<Inst>, f: Flags, greedy: bool, n: nat, base: nat, exit: nat)
    requires base <= |p| && HasOptions(b, p, f, greedy, n, base, exit)
    ensures NoMatch(p, base, base + Times(n, 1 + Size(b)))
    decreases b, 1, n
  {
    hide Has;
    hide Size;
    if n > 0 {
      assert Times(n, 1 + Size(b)) == 1 + Size(b) + Times(n - 1, 1 + Size(b));
      CodeNoMatch(b, p, f, base + 1);
      OptionsNoMatch(b, p, f, greedy, n - 1, base + 1 + Size(b), exit);
    }
  }

  lemma {:induction false} TailNoMatch(b: Ast, p: seq<Inst>, f: Flags, min: nat, max: int, greedy: bool, base: nat)
    requires base <= |p| && HasTail(b, p, f, min, max, greedy, base)
    ensures NoMatch(p, base, base + TailSize(b, min, max))
    decreases b, 2, 0
  {
    hide Has;
    hide Size;
    hide HasLoop;
    hide HasOptions;
    if max == -1 {
      LoopNoMatch(b, p, f, greedy, base);
    } else if max > min {
      OptionsNoMatch(b, p, f, greedy, max - min, base, base + Times(max - min, 1 + Size(b)));
    }
  }

  lemma OnlyLastMatches(re: Program, r: Ast)
    requires ProgramOf(re, r)
    ensures NoMatch(re.insts, 0, |re.insts| - 1) && re.insts[|re.insts| - 1].IMatch?
  {
    hide Has;
    hide Size;
    CodeNoMatch(r, re.insts, re.flags, re.exactPc + 1);
  }

  // -------------------------------------------------------------------------
  // Accepting runs
  // -------------------------------------------------------------------------

  /** Starting at `pc` and position 0 with no captures, the program can get to `b` in `n` steps. */
  ghost predicate Reaches(p: seq<Inst>, x: Subject, pc: nat, n: nat, b: Conf) {
    Runs(p, x, 0, |p|, n, Conf(pc, 0, NoCaptures()), b)
  }

  ghost predicate AtMatch(p: seq<Inst>, b: Conf) {
    b.pc < |p| && p[b.pc].IMatch?
  }

  /** A run that ends in the last instruction never executes it. */
  lemma {:induction false} RunsNarrow(p: seq<Inst>, x: Subject, n: nat, a: Conf, b: Conf)
    requires |p| > 0 && p[|p| - 1].IMatch? && Runs(p, x, 0, |p|, n, a, b)
    ensures Runs(p, x, 0, |p| - 1, n, a, b)
    decreases n
  {
    if n > 0 {
      var c: Conf :| Step(p, x, a, c) && Runs(p, x, 0, |p|, n - 1, c, b);
      RunsNarrow(p, x, n - 1, c, b);
    }
  }

  /** From the exact entry point, reaching the match means having derived the pattern. */
  lemma ExactSound(re: Program, r: Ast, x: Subject, n: nat, a: Conf, b: Conf) returns (s: Slots)
    requires ProgramOf(re, r) && x.flags == re.flags
    requires a.pc == re.exactPc && a.pos <= |x.text|
    requires Runs(re.insts, x, 0, |re.insts| - 1, n, a, b) && b.pc == |re.insts| - 1
    ensures Derives(r, x, a.pos, Save(a.slots, 0, a.pos), b.pos, s)
    ensures b.slots == Save(s, 1, b.pos)
  {
    hide Has;
    hide Size;
    hide Runs;
    hide Derives;
    hide WellFormed;
    hide AnchoredStart;
    var p, hi := re.insts, |re.insts| - 1;
    var c := FirstStep(p, x, 0, hi, n, a, b);
    var k, d := FirstExit(p, x, 0, hi, re.exactPc + 1, re.exactPc + 1 + Size(r), n - 1, c, b);
    CodeSound(r, p, x, re.exactPc + 1, k, c, d);
    var e := FirstStep(p, x, 0, hi, n - 1 - k, d, b);
    LastPart(p, x, 0, hi, n - 1 - k - 1, e, b);
    s := d.slots;
  }

  /** Every derivation from the exact entry point reaches the match. */
  lemma ExactComplete(re: Program, r: Ast, x: Subject, i: nat, s: Slots, j: nat, s': Slots) returns (n: nat)
    requires ProgramOf(re, r) && x.flags == re.flags
    requires Derives(r, x, i, Save(s, 0, i), j, s')
    ensures Runs(re.insts, x, 0, |re.insts|, n, Conf(re.exactPc, i, s), Conf(|re.insts| - 1, j, Save(s', 1, j)))
  {
    hide Has;
    hide Size;
    hide Runs;
    hide Derives;
    hide WellFormed;
    hide AnchoredStart;
    var p, e := re.insts, re.exactPc;
    var last := e + 1 + Size(r);
    DerivesBounds(r, x, i, Save(s, 0, i), j, s');
    n := CodeComplete(r, p, x, e + 1, i, Save(s, 0, i), j, s');
    RunsCons(p, x, 0, |p|, e + 1, last, n, Conf(e, i, s), Conf(e + 1, i, Save(s, 0, i)), Conf(last, j, s'));
    RunsSnoc(p, x, 0, |p|, 0, |p|, n + 1, Conf(e, i, s), Conf(last, j, s'), Conf(last + 1, j, Save(s', 1, j)));
    n := n + 2;
  }

  /** The search prefix enters the pattern at some later position, with the slots it was given. */
  lemma {:induction false} PrefixSound(re: Program, r: Ast, x: Subject, n: nat, a: Conf, b: Conf)
      returns (m: nat, i: nat)
    requires ProgramOf(re, r) && !Anchored(r, re.flags)
    requires a.pc == 0 && a.pos <= |x.text|
    requires Runs(re.insts, x, 0, |re.insts| - 1, n, a, b) && b.pc == |re.insts| - 1
    ensures a.pos <= i <= |x.text| && Runs(re.insts, x, 0, |re.insts| - 1, m, Conf(re.exactPc, i, a.slots), b)
    decreases n
  {
    hide Has;
    hide Size;
    hide Runs;
    hide WellFormed;
    hide AnchoredStart;
    var p, hi := re.insts, |re.insts| - 1;
    var c := FirstStep(p, x, 0, hi, n, a, b);
    if c.pc == re.exactPc {
      m, i := n - 1, a.pos;
    } else {
      var d := FirstStep(p, x, 0, hi, n - 1, c, b);
      var e := FirstStep(p, x, 0, hi, n - 2, d, b);
      m, i := PrefixSound(re, r, x, n - 3, e, b);
    }
  }

  /** The search prefix can enter the pattern at every position. */
  lemma {:induction false} PrefixComplete(re: Program, r: Ast, x: Subject, j: nat, i: nat, s: Slots) returns (n: nat)
    requires ProgramOf(re, r) && !Anchored(r, re.flags) && j <= i <= |x.text|
    ensures Runs(re.insts, x, 0, |re.insts|, n, Conf(0, j, s), Conf(re.exactPc, i, s))
    decreases i - j
  {
    hide Has;
    hide Size;
    hide Runs;
    hide WellFormed;
    hide AnchoredStart;
    var p, e := re.insts, re.exactPc;
    if j == i {
      RunsOne(p, x, 0, |p|, Conf(0, i, s), Conf(e, i, s));
      n := 1;
    } else {
      n := PrefixComplete(re, r, x, j + 1, i, s);
      RunsCons(p, x, 0, |p|, 0, |p|, n, Conf(2, j + 1, s), Conf(0, j + 1, s), Conf(e, i, s));
      RunsCons(p, x, 0, |p|, 0, |p|, n + 1, Conf(1, j, s), Conf(2, j + 1, s), Conf(e, i, s));
      RunsCons(p, x, 0, |p|, 0, |p|, n + 2, Conf(0, j, s), Conf(1, j, s), Conf(e, i, s));
      n := n + 3;
    }
  }

  /** What a run from an entry point that got to the match proves about the text. */
  lemma AcceptSound(re: Program, r: Ast, x: Subject, pc: nat, n: nat, b: Conf) returns (i: nat, s: Slots)
    requires ProgramOf(re, r) && x.flags == re.flags && (pc == re.exactPc || pc == re.searchPc)
    requires Reaches(re.insts, x, pc, n, b) && AtMatch(re.insts, b)
    ensures pc == re.exactPc ==> i == 0
    ensures Derives(r, x, i, Save(NoCaptures(), 0, i), b.pos, s) && b.slots == Save(s, 1, b.pos)
  {
    hide Runs;
    hide Derives;
    hide Has;
    hide Size;
    hide WellFormed;
    hide AnchoredStart;
    OnlyLastMatches(re, r);
    RunsNarrow(re.insts, x, n, Conf(pc, 0, NoCaptures()), b);
    if pc == re.exactPc {
      i := 0;
      s := ExactSound(re, r, x, n, Conf(pc, 0, NoCaptures()), b);
    } else {
      var m: nat;
      m, i := PrefixSound(re, r, x, n, Conf(pc, 0, NoCaptures()), b);
      s := ExactSound(re, r, x, m, Conf(re.exactPc, i, NoCaptures()), b);
    }
  }

  /** Every match the entry point is meant to find is found by some run. */
  lemma AcceptComplete(re: Program, r: Ast, x: Subject, pc: nat, i: nat, j: nat) returns (n: nat, b: Conf)
    requires ProgramOf(re, r) && x.flags == re.flags && ((pc == re.exactPc && i == 0) || pc == re.searchPc)
    requires Lang(r, x, i, j)
    ensures Reaches(re.insts, x, pc, n, b) && AtMatch(re.insts, b) && b.pos == j
  {
    hide Runs;
    hide Derives;
    hide Lang;
    hide Has;
    hide Size;
    hide WellFormed;
    hide AnchoredStart;
    LangBounds(r, x, i, j);
    var s := LangDerives(r, x, i, Save(NoCaptures(), 0, i), j);
    n := ExactComplete(re, r, x, i, NoCaptures(), j, s);
    b := Conf(|re.insts| - 1, j, Save(s, 1, j));
    if pc != re.exactPc {
      var m := PrefixComplete(re, r, x, 0, i, NoCaptures());
      RunsCompose(re.insts, x, 0, |re.insts|, m, Conf(0, 0, NoCaptures()), n, Conf(re.exactPc, i, NoCaptures()), b);
      n := m + n;
    } else if Anchored(r, re.flags) {
      AnchoredMatchesStart(r, x, i, j);
    }
  }
}
