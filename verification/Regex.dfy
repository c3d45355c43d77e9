/**
 The public matching operations, and what their answers and captures mean.
 */
module Regex {
  import opened RegexSyntax
  import opened RegexCompiler
  import opened RegexProgram
  import opened RegexVm

  datatype Capture = Capture(start: int, end: int, length: nat)

  const NO_CAPTURE := Capture(UNSET, UNSET, 0)

  /** Capture `k` as it is handed to the caller: an ordered interval, or unset. */
  function Report(s: Slots, k: nat): Capture {
    if k < MAX_CAPTURES && s[2 * k] != UNSET && s[2 * k + 1] != UNSET && s[2 * k + 1] >= s[2 * k] then
      Capture(s[2 * k], s[2 * k + 1], s[2 * k + 1] - s[2 * k])
    else
      NO_CAPTURE
  }

  method ReportAll(s: Slots, count: nat) returns (captures: seq<Capture>)
    ensures |captures| == count && forall k :: 0 <= k < count ==> captures[k] == Report(s, k)
  {
    captures := [];
    for k := 0 to count
      invariant |captures| == k && forall j :: 0 <= j < k ==> captures[j] == Report(s, j)
    {
      captures := captures + [Report(s, k)];
    }
  }

  /** The slots that one way of matching [i, j) with `r` leaves behind, capture 0 included. */
  ghost predicate Recorded(r: Ast, x: Subject, i: nat, j: nat, s: Slots) {
    exists b: Slots :: Derives(r, x, i, Save(NoCaptures(), 0, i), j, b) && s == Save(b, 1, j)
  }

  lemma {:induction false} GroupsPositive(r: Ast)
    requires WellFormed(r)
    ensures 0 !in Groups(r)
  {
    match r
    case Concat(a, b) => GroupsPositive(a); GroupsPositive(b);
    case Alt(a, b) => GroupsPositive(a); GroupsPositive(b);
    case Quant(b, _, _, _) => GroupsPositive(b);
    case Group(b, _) => GroupsPositive(b);
    case _ =>
  }

  /** Capture 0 is the matched interval itself. */
  lemma RecordedWhole(r: Ast, x: Subject, i: nat, j: nat, s: Slots)
    requires WellFormed(r) && Recorded(r, x, i, j, s)
    ensures i <= j <= |x.text| && Lang(r, x, i, j)
    ensures s[0] == i && s[1] == j && Report(s, 0) == Capture(i, j, j - i)
  {
    hide Derives;
    hide Lang;
    hide WellFormed;
    hide Groups;
    var b: Slots :| Derives(r, x, i, Save(NoCaptures(), 0, i), j, b) && s == Save(b, 1, j);
    GroupsPositive(r);
    SlotsUntouched(r, x, i, Save(NoCaptures(), 0, i), j, b, 0);
    DerivesLang(r, x, i, Save(NoCaptures(), 0, i), j, b);
    LangBounds(r, x, i, j);
  }

  /** Every other reported capture is unset or an interval that the body of its own group matches. */
  lemma RecordedGroups(r: Ast, x: Subject, i: nat, j: nat, s: Slots, k: nat)
    requires WellFormed(r) && Recorded(r, x, i, j, s) && 1 <= k < MAX_CAPTURES
    ensures GenuineCapture(r, x, k, s)
    ensures Report(s, k) ==
      if s[2 * k] == UNSET then NO_CAPTURE else Capture(s[2 * k], s[2 * k + 1], s[2 * k + 1] - s[2 * k])
  {
    hide Derives;
    hide Lang;
    hide WellFormed;
    hide HasGroup;
    var b: Slots :| Derives(r, x, i, Save(NoCaptures(), 0, i), j, b) && s == Save(b, 1, j);
    CapturesGenuine(r, r, x, i, Save(NoCaptures(), 0, i), j, b, k);
    assert s[2 * k] == b[2 * k] && s[2 * k + 1] == b[2 * k + 1];
  }

  /** A group that every match passes through is reported, as an interval inside the match. */
  lemma RecordedCertain(r: Ast, x: Subject, i: nat, j: nat, s: Slots, k: nat)
    requires WellFormed(r) && Recorded(r, x, i, j, s) && 1 <= k < MAX_CAPTURES && Certain(r, k)
    ensures var c := Report(s, k); i <= c.start <= c.end <= j && c.length == c.end - c.start
    ensures s[2 * k] >= 0 && s[2 * k + 1] >= 0
    ensures exists b: Ast :: HasGroup(r, k, b) && Lang(b, x, s[2 * k], s[2 * k + 1])
    ensures Report(s, k).start == s[2 * k] && Report(s, k).end == s[2 * k + 1]
  {
    hide Derives;
    hide Lang;
    hide WellFormed;
    hide HasGroup;
    hide Certain;
    var b: Slots :| Derives(r, x, i, Save(NoCaptures(), 0, i), j, b) && s == Save(b, 1, j);
    CertainIsSet(r, x, i, Save(NoCaptures(), 0, i), j, b, k);
    RecordedGroups(r, x, i, j, s, k);
  }

  /** A run to the match, read as a recorded match. */
  lemma RunRecorded(re: Program, r: Ast, x: Subject, entry: nat, n: nat, b: Conf) returns (i: nat)
    requires ProgramOf(re, r) && x.flags == re.flags && (entry == re.exactPc || entry == re.searchPc)
    requires Reaches(re.insts, x, entry, n, b) && AtMatch(re.insts, b)
    ensures (entry == re.exactPc ==> i == 0) && Recorded(r, x, i, b.pos, b.slots)
  {
    hide Runs;
    hide Derives;
    hide ProgramOf;
    var s: Slots;
    i, s := AcceptSound(re, r, x, entry, n, b);
  }

  /** Does the whole text match? */
  method MatchExact(re: Program, ghost r: Ast, text: seq<Byte>, maxCaptures: nat)
      returns (found: bool, captures: seq<Capture>)
    requires ProgramOf(re, r)
    ensures found <==> Lang(r, Subject(re.flags, text), 0, |text|)
    ensures found ==> exists s: Slots ::
      Recorded(r, Subject(re.flags, text), 0, |text|, s)
      && |captures| == maxCaptures && forall k :: 0 <= k < maxCaptures ==> captures[k] == Report(s, k)
  {
    hide Runs;
    hide Lang;
    hide Has;
    hide Size;
    hide WellFormed;
    hide Recorded;
    var x := Subject(re.flags, text);
    var vm := new PikeVm(re, x, re.exactPc, true);
    forall n: nat, b: Conf | Reaches(re.insts, x, re.exactPc, n, b) && AtMatch(re.insts, b)
      ensures b.slots[0] == 0 && b.slots[1] == b.pos
    {
      var i := RunRecorded(re, r, x, re.exactPc, n, b);
      RecordedWhole(r, x, i, b.pos, b.slots);
    }
    found := vm.Run();
    captures := [];
    if found {
      ghost var s := BestRecorded(re, r, vm);
      RecordedWhole(r, x, 0, |text|, s);
      captures := ReportAll(vm.best, maxCaptures);
    } else if Lang(r, x, 0, |text|) {
      var n, b := AcceptComplete(re, r, x, re.exactPc, 0, |text|);
    }
  }

  lemma BestRecorded(re: Program, r: Ast, vm: PikeVm) returns (s: Slots)
    requires ProgramOf(re, r) && vm.p == re.insts && vm.x.flags == re.flags && vm.entry == re.exactPc && vm.full
    requires vm.Genuine(vm.best)
    ensures s == vm.best && Recorded(r, vm.x, 0, |vm.x.text|, s)
  {
    hide Runs;
    hide ProgramOf;
    hide Recorded;
    s := vm.best;
    var pos: nat, t: Thread :| Reached(vm.p, vm.x, vm.entry, pos, t) && t.pc < |vm.p| && vm.p[t.pc].IMatch? &&
      t.slots == s && pos == |vm.x.text|;
    var n: nat :| Reaches(vm.p, vm.x, vm.entry, n, Conf(t.pc, pos, t.slots));
    var i := RunRecorded(re, r, vm.x, vm.entry, n, Conf(t.pc, pos, t.slots));
  }

  /** Of all matches in the text, one that ends first starts here. */
  ghost predicate StartsFirst(r: Ast, x: Subject, i: nat) {
    exists e: nat :: Lang(r, x, i, e) && forall k: nat, j: nat :: Lang(r, x, k, j) ==> e <= j
  }

  /** Does some interval of the text match? The reported one starts where a match starts that ends first. */
  method Search(re: Program, ghost r: Ast, text: seq<Byte>, maxCaptures: nat)
      returns (found: bool, captures: seq<Capture>)
    requires ProgramOf(re, r)
    ensures found <==> exists i: nat, j: nat :: Lang(r, Subject(re.flags, text), i, j)
    ensures found ==> exists i: nat, j: nat, s: Slots ::
      Recorded(r, Subject(re.flags, text), i, j, s) && StartsFirst(r, Subject(re.flags, text), i)
      && |captures| == maxCaptures && forall k :: 0 <= k < maxCaptures ==> captures[k] == Report(s, k)
  {
    hide Runs;
    hide Lang;
    hide Has;
    hide Size;
    hide WellFormed;
    hide Recorded;
    hide StartsFirst;
    var x := Subject(re.flags, text);
    var vm := new PikeVm(re, x, re.searchPc, false);
    found := vm.Run();
    captures := [];
    if found {
      ghost var i, j := BestFound(re, r, vm);
      RecordedWhole(r, x, i, j, vm.best);
      BestStarts(re, r, vm, i);
      captures := ReportAll(vm.best, maxCaptures);
    } else {
      forall i: nat, j: nat | Lang(r, x, i, j) ensures false {
        var n, b := AcceptComplete(re, r, x, re.searchPc, i, j);
      }
    }
  }

  lemma BestFound(re: Program, r: Ast, vm: PikeVm) returns (i: nat, j: nat)
    requires ProgramOf(re, r) && vm.p == re.insts && vm.x.flags == re.flags && vm.entry == re.searchPc
    requires vm.Genuine(vm.best)
    ensures Recorded(r, vm.x, i, j, vm.best)
  {
    hide Runs;
    hide ProgramOf;
    hide Recorded;
    var t: Thread;
    j, t :| Reached(vm.p, vm.x, vm.entry, j, t) && t.pc < |vm.p| && vm.p[t.pc].IMatch? && t.slots == vm.best &&
      (vm.full ==> j == |vm.x.text|);
    var n: nat :| Reaches(vm.p, vm.x, vm.entry, n, Conf(t.pc, j, t.slots));
    i := RunRecorded(re, r, vm.x, vm.entry, n, Conf(t.pc, j, t.slots));
  }

  lemma BestStarts(re: Program, r: Ast, vm: PikeVm, i: nat)
    requires ProgramOf(re, r) && vm.p == re.insts && vm.x.flags == re.flags && vm.entry == re.searchPc
    requires vm.best[0] == i && exists first: nat :: vm.StartsAt(first, vm.best[0]) && vm.EndsFirst(first)
    ensures StartsFirst(r, vm.x, i)
  {
    hide Runs;
    hide Lang;
    hide Recorded;
    hide WellFormed;
    hide Has;
    hide Size;
    var first: nat :| vm.StartsAt(first, i) && vm.EndsFirst(first);
    var t: Thread :| Reached(vm.p, vm.x, vm.entry, first, t) && t.pc < |vm.p| && vm.p[t.pc].IMatch? && t.slots[0] == i;
    var n: nat :| Reaches(vm.p, vm.x, vm.entry, n, Conf(t.pc, first, t.slots));
    var k := RunRecorded(re, r, vm.x, vm.entry, n, Conf(t.pc, first, t.slots));
    RecordedWhole(r, vm.x, k, first, t.slots);
    forall k: nat, j: nat | Lang(r, vm.x, k, j)
      ensures first <= j
    {
      var m, b := AcceptComplete(re, r, vm.x, re.searchPc, k, j);
    }
  }
}
