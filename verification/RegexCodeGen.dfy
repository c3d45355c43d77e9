/**
 The compiler proper: it appends instructions to a growing program, compiles sub-patterns in
 between, and patches branch targets once they are known.
 */
module RegexCodeGen {
  import opened RegexSyntax
  import opened RegexCompiler

  /** The two programs agree on the addresses [lo, hi). */
  ghost predicate SameCode(p: seq<Inst>, q: seq<Inst>, lo: nat, hi: nat) {
    hi <= |p| && hi <= |q| && forall k :: lo <= k < hi ==> p[k] == q[k]
  }

  /** The code of a pattern is where it was as long as its own addresses are left alone. */
  lemma {:induction false} HasFrame(r: Ast, p: seq<Inst>, q: seq<Inst>, f: Flags, base: nat)
    requires Has(r, p, f, base) && SameCode(p, q, base, base + Size(r))
    ensures Has(r, q, f, base)
    decreases r, 0, 1
  {
    match r
    case Concat(_, _) => CompoundFrame(r, p, q, f, base);
    case Alt(_, _) => CompoundFrame(r, p, q, f, base);
    case Group(_, _) => CompoundFrame(r, p, q, f, base);
    case Quant(b, min, max, greedy) => QuantFrame(b, min, max, greedy, p, q, f, base);
    case _ =>
  }

  lemma {:induction false} CompoundFrame(r: Ast, p: seq<Inst>, q: seq<Inst>, f: Flags, base: nat)
    requires r.Concat? || r.Alt? || r.Group?
    requires Has(r, p, f, base) && SameCode(p, q, base, base + Size(r))
    ensures Has(r, q, f, base)
    decreases r, 0, 0
  {
    hide Has;
    hide Size;
    match r
    case Concat(a, b) =>
      ConcatCode(a, b, p, f, base);
      ConcatCode(a, b, q, f, base);
      HasFrame(a, p, q, f, base);
      HasFrame(b, p, q, f, base + Size(a));
    case Alt(a, b) =>
      AltCode(a, b, p, f, base);
      AltCode(a, b, q, f, base);
      HasFrame(a, p, q, f, base + 1);
      HasFrame(b, p, q, f, base + 2 + Size(a));
    case Group(b, k) =>
      GroupCode(b, k, p, f, base);
      GroupCode(b, k, q, f, base);
      HasFrame(b, p, q, f, base + 1);
  }

  lemma {:induction false} QuantFrame(b: Ast, min: nat, max: int, greedy: bool, p: seq<Inst>, q: seq<Inst>, f: Flags,
                                      base: nat)
    requires Has(Quant(b, min, max, greedy), p, f, base)
    requires SameCode(p, q, base, base + Size(Quant(b, min, max, greedy)))
    ensures Has(Quant(b, min, max, greedy), q, f, base)
    decreases Quant(b, min, max, greedy), 0, 0
  {
    hide Has;
    hide Size;
    hide HasLoop;
    hide HasCopies;
    hide HasTail;
    hide HasOptions;
    QuantCode(b, min, max, greedy, p, f, base);
    QuantCode(b, min, max, greedy, q, f, base);
    if min == 0 && max == 1 {
      OptionsFrame(b, p, q, f, greedy, 1, base, base + 1 + Size(b));
    } else if min == 0 && max == -1 {
      LoopFrame(b, p, q, f, greedy, base);
    } else if min == 1 && max == -1 {
      HasFrame(b, p, q, f, base);
    } else {
      CopiesFrame(b, p, q, f, min, base);
      TailFrame(b, p, q, f, min, max, greedy, base + Times(min, Size(b)));
    }
  }

  lemma {:induction false} LoopFrame(b: Ast, p: seq<Inst>, q: seq<Inst>, f: Flags, greedy: bool, base: nat)
    requires HasLoop(b, p, f, greedy, base) && SameCode(p, q, base, base + 2 + Size(b))
    ensures HasLoop(b, q, f, greedy, base)
    decreases b, 1, 0
  {
    hide Has;
    hide Size;
    HasFrame(b, p, q, f, base + 1);
  }

  lemma {:induction false} CopiesFrame(b: Ast, p: seq<Inst>, q: seq<Inst>, f: Flags, n: nat, base: nat)
    requires HasCopies(b, p, f, n, base) && SameCode(p, q, base, base + Times(n, Size(b)))
    ensures HasCopies(b, q, f, n, base)
    decreases b, 1, n
  {
    hide Has;
    hide Size;
    if n > 0 {
      assert Times(n, Size(b)) == Size(b) + Times(n - 1, Size(b));
      HasFrame(b, p, q, f, base);
      CopiesFrame(b, p, q, f, n - 1, base + Size(b));
    }
  }

  lemma {:induction false} OptionsFrame(b: Ast, p: seq<Inst>, q: seq<Inst>, f: Flags, greedy: bool, n: nat, base: nat,
                                        exit: nat)
    requires HasOptions(b, p, f, greedy, n, base, exit) && SameCode(p, q, base, base + Times(n, 1 + Size(b)))
    ensures HasOptions(b, q, f, greedy, n, base, exit)
    decreases b, 1, n
  {
    hide Has;
    hide HasOptions;
    hide Size;
    if n == 0 {
      OptionsNone(b, q, f, greedy, base, exit);
    } else {
      OptionsUnfold(b, p, f, greedy, n, base, exit);
      OptionsUnfold(b, q, f, greedy, n, base, exit);
      assert Times(n, 1 + Size(b)) == 1 + Size(b) + Times(n - 1, 1 + Size(b));
      HasFrame(b, p, q, f, base + 1);
      OptionsFrame(b, p, q, f, greedy, n - 1, base + 1 + Size(b), exit);
    }
  }

  /** The body of a loop with its branch in front and its jump behind. */
  lemma LoopPlaced(b: Ast, p: seq<Inst>, q: seq<Inst>, f: Flags, greedy: bool, start: nat)
    requires Has(b, p, f, start + 1) && |p| == start + 1 + Size(b)
    requires q == (p + [IJump(start)])[start := Branch(greedy, start + 1, start + 2 + Size(b))]
    ensures HasLoop(b, q, f, greedy, start) && SameCode(p, q, 0, start)
  {
    hide Has;
    hide Size;
    HasFrame(b, p, q, f, start + 1);
  }

  lemma WellFormedBody(b: Ast, min: nat, max: int, greedy: bool)
    requires WellFormed(Quant(b, min, max, greedy))
    ensures WellFormed(b) && (max == -1 || (min <= max && max - min <= MAX_REPEAT))
  {
  }

  lemma {:induction false} TailFrame(b: Ast, p: seq<Inst>, q: seq<Inst>, f: Flags, min: nat, max: int, greedy: bool,
                                     base: nat)
    requires HasTail(b, p, f, min, max, greedy, base) && SameCode(p, q, base, base + TailSize(b, min, max))
    ensures HasTail(b, q, f, min, max, greedy, base)
    decreases b, 2, 0
  {
    hide Has;
    hide HasLoop;
    hide HasOptions;
    hide Size;
    hide Times;
    if max == -1 {
      LoopFrame(b, p, q, f, greedy, base);
    } else if max > min {
      OptionsFrame(b, p, q, f, greedy, max - min, base, base + Times(max - min, 1 + Size(b)));
    }
  }

  /** One more copy at the end. */
  lemma {:induction false} CopiesSnoc(b: Ast, p: seq<Inst>, f: Flags, n: nat, base: nat)
    requires HasCopies(b, p, f, n, base) && Has(b, p, f, base + Times(n, Size(b)))
    ensures HasCopies(b, p, f, n + 1, base)
    decreases n
  {
    hide Has;
    if n == 0 {
      assert HasCopies(b, p, f, 0, base + Size(b));
    } else {
      assert Times(n, Size(b)) == Size(b) + Times(n - 1, Size(b));
      CopiesSnoc(b, p, f, n - 1, base + Size(b));
    }
  }

  /** One more optional copy at the end. */
  lemma {:induction false} OptionsSnoc(b: Ast, p: seq<Inst>, f: Flags, greedy: bool, n: nat, base: nat, last: nat,
                                       exit: nat)
    requires last == base + Times(n, 1 + Size(b)) && last < |p|
    requires HasOptions(b, p, f, greedy, n, base, exit)
    requires p[last] == Branch(greedy, last + 1, exit) && Has(b, p, f, last + 1)
    ensures HasOptions(b, p, f, greedy, n + 1, base, exit)
    decreases n
  {
    hide Has;
    if n == 0 {
      assert HasOptions(b, p, f, greedy, 0, base + 1 + Size(b), exit);
    } else {
      assert Times(n, 1 + Size(b)) == 1 + Size(b) + Times(n - 1, 1 + Size(b));
      OptionsSnoc(b, p, f, greedy, n - 1, base + 1 + Size(b), last, exit);
    }
  }

  lemma OptionsUncons(b: Ast, p: seq<Inst>, f: Flags, greedy: bool, n: nat, base: nat)
    requires n > 0 && HasOptions(b, p, f, greedy, n, base, 0)
    ensures base < |p| && p[base] == Branch(greedy, base + 1, 0)
  {
    hide Has;
  }

  /** Filling in the exit of the next optional copy. */
  lemma ExitPatched(b: Ast, p: seq<Inst>, q: seq<Inst>, f: Flags, greedy: bool, i: nat, count: nat, base: nat,
                    pc: nat, exit: nat)
    requires i < count && pc == base + Times(i, 1 + Size(b)) && exit == |p| == base + Times(count, 1 + Size(b))
    requires HasOptions(b, p, f, greedy, i, base, exit) && HasOptions(b, p, f, greedy, count - i, pc, 0)
    requires q == p[pc := Branch(greedy, pc + 1, exit)]
    ensures HasOptions(b, q, f, greedy, i + 1, base, exit)
    ensures HasOptions(b, q, f, greedy, count - i - 1, pc + 1 + Size(b), 0)
    ensures base + Times(i + 1, 1 + Size(b)) == pc + 1 + Size(b)
  {
    hide Has;
    hide Size;
    var w := 1 + Size(b);
    TimesSplit(i, count, w);
    HasFrame(b, p, q, f, pc + 1);
    OptionsFrame(b, p, q, f, greedy, count - i - 1, pc + w, 0);
    OptionsFrame(b, p, q, f, greedy, i, base, exit);
    OptionsSnoc(b, q, f, greedy, i, base, pc, exit);
  }

  class CodeGen {
    var insts: seq<Inst>

    constructor ()
      ensures insts == []
    {
      insts := [];
    }

    method Emit(inst: Inst) returns (pc: nat)
      modifies this
      ensures pc == old(|insts|) && insts == old(insts) + [inst]
    {
      pc := |insts|;
      insts := insts + [inst];
    }

    method Patch(pc: nat, inst: Inst)
      requires pc < |insts|
      modifies this
      ensures insts == old(insts)[pc := inst]
    {
      insts := insts[pc := inst];
    }

    /** Appends the code of the pattern and leaves everything emitted before as it was. */
    method CompileNode(r: Ast, f: Flags)
      requires WellFormed(r)
      modifies this
      ensures |insts| == old(|insts|) + Size(r) && SameCode(old(insts), insts, 0, old(|insts|))
      ensures Has(r, insts, f, old(|insts|))
      decreases r, 1
    {
      match r
      case Empty =>
      case Concat(a, b) => CompileConcat(a, b, f);
      case Alt(a, b) => CompileAlt(a, b, f);
      case Group(b, k) => CompileGroup(b, k, f);
      case Quant(b, min, max, greedy) => CompileQuant(b, min, max, f, greedy);
      case _ =>
        var pc := Emit(Atom(r, f));
    }

    method CompileConcat(a: Ast, b: Ast, f: Flags)
      requires WellFormed(a) && WellFormed(b)
      modifies this
      ensures |insts| == old(|insts|) + Size(Concat(a, b)) && SameCode(old(insts), insts, 0, old(|insts|))
      ensures Has(Concat(a, b), insts, f, old(|insts|))
      decreases Concat(a, b), 0
    {
      hide Has;
      hide Size;
      hide WellFormed;
      ghost var base := |insts|;
      CompileNode(a, f);
      ghost var p1 := insts;
      CompileNode(b, f);
      HasFrame(a, p1, insts, f, base);
      ConcatCode(a, b, insts, f, base);
    }

    method CompileGroup(b: Ast, k: nat, f: Flags)
      requires WellFormed(b)
      modifies this
      ensures |insts| == old(|insts|) + Size(Group(b, k)) && SameCode(old(insts), insts, 0, old(|insts|))
      ensures Has(Group(b, k), insts, f, old(|insts|))
      decreases Group(b, k), 0
    {
      hide Has;
      hide Size;
      hide WellFormed;
      ghost var base := |insts|;
      var s1 := Emit(ISave(2 * k));
      CompileNode(b, f);
      ghost var p1 := insts;
      var s2 := Emit(ISave(2 * k + 1));
      HasFrame(b, p1, insts, f, base + 1);
      GroupCode(b, k, insts, f, base);
    }

    method CompileQuant(b: Ast, min: nat, max: int, f: Flags, greedy: bool)
      requires WellFormed(Quant(b, min, max, greedy))
      modifies this
      ensures |insts| == old(|insts|) + Size(Quant(b, min, max, greedy)) && SameCode(old(insts), insts, 0, old(|insts|))
      ensures Has(Quant(b, min, max, greedy), insts, f, old(|insts|))
      decreases Quant(b, min, max, greedy), 0
    {
      hide Has;
      hide Size;
      ghost var base := |insts|;
      if min == 0 && max == 1 {
        CompileOptional(b, f, greedy);
      } else if min == 0 && max == -1 {
        CompileLoop(b, f, greedy);
      } else if min == 1 && max == -1 {
        CompilePlus(b, f, greedy);
      } else {
        CompileCounted(b, min, max, f, greedy);
      }
      QuantCode(b, min, max, greedy, insts, f, base);
    }

    method CompileAlt(a: Ast, b: Ast, f: Flags)
      requires WellFormed(a) && WellFormed(b)
      modifies this
      ensures |insts| == old(|insts|) + Size(Alt(a, b)) && SameCode(old(insts), insts, 0, old(|insts|))
      ensures Has(Alt(a, b), insts, f, old(|insts|))
      decreases Alt(a, b), 0
    {
      hide Has;
      hide Size;
      hide WellFormed;
      ghost var base := |insts|;
      var splitPc := Emit(ISplit(0, 0));
      var bodyA := |insts|;
      CompileNode(a, f);
      ghost var p1 := insts;
      var jumpPc := Emit(IJump(0));
      var bodyB := |insts|;
      CompileNode(b, f);
      ghost var p2 := insts;
      var endPc := |insts|;
      Patch(splitPc, ISplit(bodyA, bodyB));
      Patch(jumpPc, IJump(endPc));
      HasFrame(a, p1, insts, f, base + 1);
      HasFrame(b, p2, insts, f, base + 2 + Size(a));
      AltCode(a, b, insts, f, base);
    }

    method CompileOptional(b: Ast, f: Flags, greedy: bool)
      requires WellFormed(b)
      modifies this
      ensures |insts| == old(|insts|) + 1 + Size(b) && SameCode(old(insts), insts, 0, old(|insts|))
      ensures Has(Quant(b, 0, 1, greedy), insts, f, old(|insts|))
      decreases b, 2
    {
      var splitPc := Emit(ISplit(0, 0));
      var bodyPc := |insts|;
      CompileNode(b, f);
      ghost var p1 := insts;
      var endPc := |insts|;
      if greedy {
        Patch(splitPc, ISplit(bodyPc, endPc));
      } else {
        Patch(splitPc, ISplit(endPc, bodyPc));
      }
      HasFrame(b, p1, insts, f, bodyPc);
    }

    method CompileLoop(b: Ast, f: Flags, greedy: bool)
      requires WellFormed(b)
      modifies this
      ensures |insts| == old(|insts|) + 2 + Size(b) && SameCode(old(insts), insts, 0, old(|insts|))
      ensures HasLoop(b, insts, f, greedy, old(|insts|))
      decreases b, 2
    {
      hide Has;
      hide HasLoop;
      hide Size;
      hide WellFormed;
      var startPc := |insts|;
      var splitPc := Emit(ISplit(0, 0));
      var bodyPc := |insts|;
      CompileNode(b, f);
      ghost var p1 := insts;
      var jumpPc := Emit(IJump(0));
      Patch(jumpPc, IJump(startPc));
      var endPc := |insts|;
      if greedy {
        Patch(splitPc, ISplit(bodyPc, endPc));
      } else {
        Patch(splitPc, ISplit(endPc, bodyPc));
      }
      assert insts == (p1 + [IJump(startPc)])[startPc := Branch(greedy, startPc + 1, endPc)];
      LoopPlaced(b, p1, insts, f, greedy, startPc);
    }

    method CompilePlus(b: Ast, f: Flags, greedy: bool)
      requires WellFormed(b)
      modifies this
      ensures |insts| == old(|insts|) + 1 + Size(b) && SameCode(old(insts), insts, 0, old(|insts|))
      ensures Has(Quant(b, 1, -1, greedy), insts, f, old(|insts|))
      decreases b, 2
    {
      var startPc := |insts|;
      CompileNode(b, f);
      ghost var p1 := insts;
      var splitPc := Emit(ISplit(0, 0));
      var endPc := |insts|;
      if greedy {
        Patch(splitPc, ISplit(startPc, endPc));
      } else {
        Patch(splitPc, ISplit(endPc, startPc));
      }
      HasFrame(b, p1, insts, f, startPc);
    }

    method CompileCounted(b: Ast, min: nat, max: int, f: Flags, greedy: bool)
      requires WellFormed(Quant(b, min, max, greedy))
      requires !(min == 0 && max == 1) && !(min == 0 && max == -1) && !(min == 1 && max == -1)
      modifies this
      ensures |insts| == old(|insts|) + Size(Quant(b, min, max, greedy)) && SameCode(old(insts), insts, 0, old(|insts|))
      ensures Has(Quant(b, min, max, greedy), insts, f, old(|insts|))
      decreases b, 4
    {
      hide Has;
      hide HasCopies;
      hide HasOptions;
      hide HasLoop;
      hide WellFormed;
      ghost var base := |insts|;
      WellFormedBody(b, min, max, greedy);
      CompileCopies(b, min, f);
      ghost var p1 := insts;
      if max == -1 {
        CompileLoop(b, f, greedy);
      } else if max > min {
        CompileOptions(b, max - min, f, greedy);
      }
      CopiesFrame(b, p1, insts, f, min, base);
      QuantCode(b, min, max, greedy, insts, f, base);
    }

    method CompileCopies(b: Ast, min: nat, f: Flags)
      requires WellFormed(b)
      modifies this
      ensures |insts| == old(|insts|) + Times(min, Size(b)) && SameCode(old(insts), insts, 0, old(|insts|))
      ensures HasCopies(b, insts, f, min, old(|insts|))
      decreases b, 2
    {
      hide Has;
      hide Size;
      ghost var base := |insts|;
      for i := 0 to min
        invariant |insts| == base + Times(i, Size(b)) && SameCode(old(insts), insts, 0, base)
        invariant HasCopies(b, insts, f, i, base)
      {
        ghost var p1 := insts;
        CompileNode(b, f);
        CopiesFrame(b, p1, insts, f, i, base);
        CopiesSnoc(b, insts, f, i, base);
      }
    }

    method CompileOptions(b: Ast, count: nat, f: Flags, greedy: bool)
      requires WellFormed(b) && count <= MAX_REPEAT
      modifies this
      ensures |insts| == old(|insts|) + Times(count, 1 + Size(b)) && SameCode(old(insts), insts, 0, old(|insts|))
      ensures HasOptions(b, insts, f, greedy, count, old(|insts|), |insts|)
      decreases b, 3
    {
      hide Has;
      hide Size;
      ghost var base := |insts|;
      var splitPcs := new nat[MAX_REPEAT];
      for i := 0 to count
        invariant |insts| == base + Times(i, 1 + Size(b)) && SameCode(old(insts), insts, 0, base)
        invariant forall k :: 0 <= k < i ==> splitPcs[k] == base + Times(k, 1 + Size(b))
        invariant HasOptions(b, insts, f, greedy, i, base, 0)
        modifies this, splitPcs
      {
        ghost var p1 := insts;
        splitPcs[i] := |insts|;
        OptionBody(b, f, greedy);
        OptionsFrame(b, p1, insts, f, greedy, i, base, 0);
        OptionsSnoc(b, insts, f, greedy, i, base, splitPcs[i], 0);
      }
      PatchExits(b, count, f, greedy, splitPcs, base);
    }

    /** One optional copy, its exit still to be filled in. */
    method OptionBody(b: Ast, f: Flags, greedy: bool)
      requires WellFormed(b)
      modifies this
      ensures |insts| == old(|insts|) + 1 + Size(b) && SameCode(old(insts), insts, 0, old(|insts|))
      ensures insts[old(|insts|)] == Branch(greedy, old(|insts|) + 1, 0) && Has(b, insts, f, old(|insts|) + 1)
      decreases b, 2
    {
      hide Has;
      hide Size;
      var splitPc := Emit(ISplit(0, 0));
      var bodyPc := |insts|;
      CompileNode(b, f);
      ghost var p1 := insts;
      if greedy {
        Patch(splitPc, ISplit(bodyPc, 0));
      } else {
        Patch(splitPc, ISplit(0, bodyPc));
      }
      HasFrame(b, p1, insts, f, bodyPc);
    }

    method PatchExits(b: Ast, count: nat, f: Flags, greedy: bool, splitPcs: array<nat>, ghost base: nat)
      requires count <= splitPcs.Length && |insts| == base + Times(count, 1 + Size(b))
      requires forall k :: 0 <= k < count ==> splitPcs[k] == base + Times(k, 1 + Size(b))
      requires HasOptions(b, insts, f, greedy, count, base, 0)
      modifies this
      ensures |insts| == old(|insts|) && SameCode(old(insts), insts, 0, base)
      ensures HasOptions(b, insts, f, greedy, count, base, |insts|)
    {
      hide Has;
      hide HasOptions;
      hide Size;
      var endPc := |insts|;
      OptionsNone(b, insts, f, greedy, base, endPc);
      for i := 0 to count
        invariant |insts| == endPc && SameCode(old(insts), insts, 0, base)
        invariant HasOptions(b, insts, f, greedy, i, base, endPc)
        invariant HasOptions(b, insts, f, greedy, count - i, base + Times(i, 1 + Size(b)), 0)
      {
        var pc := splitPcs[i];
        ghost var p1 := insts;
        OptionsUncons(b, insts, f, greedy, count - i, pc);
        var split := insts[pc];
        if greedy {
          Patch(pc, ISplit(split.target1, endPc));
        } else {
          Patch(pc, ISplit(endPc, split.target2));
        }
        ExitPatched(b, p1, insts, f, greedy, i, count, base, pc, endPc);
      }
    }
  }
}
