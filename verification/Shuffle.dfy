/**
 * The block shuffler of the assembly generator.
 *
 * Generated code is a list of text lines. It is cut after every line that is an
 * unconditional jump to the next line, the pieces are put in an arbitrary order, and
 * a jump to the start label and an end label are put around them. A line holds
 * several instructions when an instruction was emitted without its line end.
 */
module Shuffle {
  import opened Sequences

  datatype Label = Start | End | Uncond(i: nat) | Cond(i: nat)

  datatype Instr =
    | Op(code: nat)
    | Jump(to: Label)
    | Branch(to: Label)
    | Mark(name: Label)

  type Line = seq<Instr>

  /** One request to the instruction generator. Some floating point instructions come without a line end. */
  datatype Kind = Plain(code: nat, lineEnd: bool) | Unconditional | Conditional(test: nat)

  /** Text: complete lines, then what follows the last line end. */
  datatype Text = Text(lines: seq<Line>, tail: Line)

  /** Appending text continues the unfinished line. */
  function Cat(a: Text, b: Text): Text {
    if b.lines == [] then Text(a.lines, a.tail + b.tail)
    else Text(a.lines + [a.tail + b.lines[0]] + b.lines[1..], b.tail)
  }

  function Flat(ls: seq<Line>): seq<Instr> {
    if ls == [] then [] else Flat(ls[..|ls| - 1]) + ls[|ls| - 1]
  }

  function All(t: Text): seq<Instr> {
    Flat(t.lines) + t.tail
  }

  lemma {:induction false} FlatCat(a: seq<Line>, b: seq<Line>)
    ensures Flat(a + b) == Flat(a) + Flat(b)
  {
    if b == [] {
      assert a + b == a;
    } else {
      var n := |b| - 1;
      FlatCat(a, b[..n]);
      assert (a + b)[..|a| + n] == a + b[..n];
      assert Flat(a + b) == Flat(a + b[..n]) + b[n];
      assert Flat(a) + Flat(b[..n]) + b[n] == Flat(a) + Flat(b);
    }
  }

  lemma FlatOne(l: Line)
    ensures Flat([l]) == l
  {
    assert [l][..0] == [];
  }

  lemma AllCat(a: Text, b: Text)
    ensures All(Cat(a, b)) == All(a) + All(b)
  {
    if b.lines == [] {
      assert Flat(a.lines) + (a.tail + b.tail) == Flat(a.lines) + a.tail + b.tail;
      assert Flat([]) + b.tail == b.tail;
    } else {
      FlatAround(a.lines, a.tail, b.lines);
      var first, rest := b.lines[0], Flat(b.lines[1..]);
      Regroup(Flat(a.lines), a.tail, first);
      Regroup(Flat(a.lines) + a.tail, first, rest);
      Regroup(Flat(a.lines) + a.tail, first + rest, b.tail);
    }
  }

  lemma FlatAround(a: seq<Line>, t: Line, b: seq<Line>)
    requires b != []
    ensures Flat(a + [t + b[0]] + b[1..]) == Flat(a) + (t + b[0]) + Flat(b[1..])
    ensures Flat(b) == b[0] + Flat(b[1..])
  {
    hide Flat;
    FlatCat(a + [t + b[0]], b[1..]);
    FlatCat(a, [t + b[0]]);
    FlatOne(t + b[0]);
    assert b == [b[0]] + b[1..];
    FlatCat([b[0]], b[1..]);
    FlatOne(b[0]);
  }

  // ----- the generated code -----

  /** The instructions for one request, with the current label numbers. */
  function Emitted(k: Kind, u: nat, c: nat): seq<Instr> {
    match k
    case Plain(code, _) => [Op(code)]
    case Unconditional => [Jump(Uncond(u)), Mark(Uncond(u))]
    case Conditional(test) => [Op(test), Branch(Cond(c)), Mark(Cond(c))]
  }

  function NextU(k: Kind, u: nat): nat {
    if k.Unconditional? then u + 1 else u
  }

  function NextC(k: Kind, c: nat): nat {
    if k.Conditional? then c + 1 else c
  }

  function Code(ks: seq<Kind>, u: nat, c: nat): seq<Instr> {
    if ks == [] then [] else Emitted(ks[0], u, c) + Code(ks[1..], NextU(ks[0], u), NextC(ks[0], c))
  }

  function Whole(ks: seq<Kind>, u: nat, c: nat): seq<Instr> {
    [Mark(Start)] + Code(ks, u, c) + [Jump(End)]
  }

  /** The instructions that do something, in the order requested. */
  function Ops(ks: seq<Kind>): seq<nat> {
    if ks == [] then []
    else match ks[0] {
      case Plain(code, _) => [code] + Ops(ks[1..])
      case Unconditional => Ops(ks[1..])
      case Conditional(test) => [test] + Ops(ks[1..])
    }
  }

  function Visible(p: seq<Instr>): seq<nat> {
    if p == [] then [] else (if p[0].Op? then [p[0].code] else []) + Visible(p[1..])
  }

  /** Every jump but a final one goes to a label right behind it. */
  ghost predicate Falls(p: seq<Instr>) {
    forall i | 0 <= i < |p| - 1 && (p[i].Jump? || p[i].Branch?) :: p[i + 1] == Mark(p[i].to)
  }

  ghost predicate Unique(p: seq<Instr>) {
    forall i, j | 0 <= i < j < |p| && p[i].Mark? && p[j].Mark? :: p[i].name != p[j].name
  }

  /** The labels of generated code are numbered from the current numbers on. */
  ghost predicate LabelsFrom(p: seq<Instr>, u: nat, c: nat) {
    forall i | 0 <= i < |p| && p[i].Mark? ::
      (p[i].name.Uncond? && p[i].name.i >= u) || (p[i].name.Cond? && p[i].name.i >= c)
  }

  lemma {:induction false} CodeShape(ks: seq<Kind>, u: nat, c: nat)
    ensures Falls(Code(ks, u, c)) && Unique(Code(ks, u, c)) && LabelsFrom(Code(ks, u, c), u, c)
    ensures Code(ks, u, c) != [] ==> var last := Code(ks, u, c)[|Code(ks, u, c)| - 1]; !last.Jump? && !last.Branch?
  {
    if ks != [] {
      CodeShape(ks[1..], NextU(ks[0], u), NextC(ks[0], c));
    }
  }

  lemma WholeShape(ks: seq<Kind>, u: nat, c: nat)
    ensures Falls(Whole(ks, u, c)) && Unique(Whole(ks, u, c))
    ensures forall i | 0 <= i < |Whole(ks, u, c)| :: Whole(ks, u, c)[i] != Mark(End)
  {
    CodeShape(ks, u, c);
  }

  lemma {:induction false} VisibleCat(p: seq<Instr>, q: seq<Instr>)
    ensures Visible(p + q) == Visible(p) + Visible(q)
  {
    if p == [] {
      assert p + q == q;
    } else {
      VisibleCat(p[1..], q);
      assert (p + q)[1..] == p[1..] + q;
      VisibleFirst(p);
      VisibleFirst(p + q);
      hide Visible;
      assert Visible([p[0]]) + (Visible(p[1..]) + Visible(q)) == Visible([p[0]]) + Visible(p[1..]) + Visible(q);
    }
  }

  lemma VisibleFirst(p: seq<Instr>)
    requires p != []
    ensures Visible(p) == Visible([p[0]]) + Visible(p[1..])
  {
    assert [p[0]][1..] == [];
  }

  lemma EmittedVisible(k: Kind, u: nat, c: nat)
    ensures Visible(Emitted(k, u, c)) == Ops([k])
  {
    var e := Emitted(k, u, c);
    assert [k][1..] == [];
    match k
    case Plain(_, _) =>
    case Unconditional =>
      VisibleCat([e[0]], [e[1]]);
    case Conditional(_) =>
      VisibleCat([e[0]], [e[1], e[2]]);
      VisibleCat([e[1]], [e[2]]);
      assert e == [e[0]] + [e[1], e[2]] && [e[1], e[2]] == [e[1]] + [e[2]];
  }

  lemma OpsFirst(ks: seq<Kind>)
    requires ks != []
    ensures Ops(ks) == Ops([ks[0]]) + Ops(ks[1..])
  {
    assert [ks[0]][1..] == [];
  }

  lemma {:induction false} CodeVisible(ks: seq<Kind>, u: nat, c: nat)
    ensures Visible(Code(ks, u, c)) == Ops(ks)
  {
    if ks != [] {
      hide Visible, Emitted;
      CodeVisible(ks[1..], NextU(ks[0], u), NextC(ks[0], c));
      EmittedVisible(ks[0], u, c);
      VisibleCat(Emitted(ks[0], u, c), Code(ks[1..], NextU(ks[0], u), NextC(ks[0], c)));
      OpsFirst(ks);
    }
  }

  lemma WholeVisible(ks: seq<Kind>, u: nat, c: nat)
    ensures Visible(Whole(ks, u, c)) == Ops(ks)
  {
    CodeVisible(ks, u, c);
    VisibleCat([Mark(Start)] + Code(ks, u, c), [Jump(End)]);
    VisibleCat([Mark(Start)], Code(ks, u, c));
  }

  // ----- running code -----

  function Find(p: seq<Instr>, l: Label): nat {
    if p == [] || p[0] == Mark(l) then 0 else 1 + Find(p[1..], l)
  }

  /** Where the machine goes from `pc`; `taken` decides a conditional branch. */
  function Goes(p: seq<Instr>, pc: nat, taken: bool): nat
    requires pc < |p|
  {
    match p[pc]
    case Jump(l) => Find(p, l)
    case Branch(l) => if taken then Find(p, l) else pc + 1
    case _ => pc + 1
  }

  /** `n` steps from `pc`: where they lead and which operations they do. */
  function Exec(p: seq<Instr>, taken: nat -> bool, pc: nat, n: nat): (nat, seq<nat>)
    decreases n
  {
    if n == 0 || pc >= |p| then (pc, [])
    else
      var (to, ops) := Exec(p, taken, Goes(p, pc, taken(n)), n - 1);
      (to, (if p[pc].Op? then [p[pc].code] else []) + ops)
  }

  /** A label that occurs once is found where it is. */
  lemma {:induction false} FindAt(p: seq<Instr>, l: Label, i: nat)
    requires i < |p| && p[i] == Mark(l) && forall j | 0 <= j < i :: p[j] != Mark(l)
    ensures Find(p, l) == i
  {
    if i > 0 { FindAt(p[1..], l, i - 1); }
  }

  // ----- cutting and reordering -----

  function Offset(bs: seq<Line>, k: nat): nat
    requires k <= |bs|
  {
    if k == 0 then 0 else Offset(bs, k - 1) + |bs[k - 1]|
  }

  lemma {:induction false} OffsetFlat(bs: seq<Line>, k: nat)
    requires k <= |bs|
    ensures Offset(bs, k) == |Flat(bs[..k])|
  {
    if k > 0 {
      OffsetFlat(bs, k - 1);
      assert bs[..k][..k - 1] == bs[..k - 1];
    } else {
      assert bs[..0] == [];
    }
  }

  lemma FlatAt(bs: seq<Line>, k: nat, i: nat)
    requires k < |bs| && i < |bs[k]|
    ensures Offset(bs, k) + i < |Flat(bs)| && Flat(bs)[Offset(bs, k) + i] == bs[k][i]
  {
    OffsetFlat(bs, k);
    assert bs == bs[..k] + ([bs[k]] + bs[k + 1..]);
    FlatCat(bs[..k], [bs[k]] + bs[k + 1..]);
    FlatCat([bs[k]], bs[k + 1..]);
    FlatOne(bs[k]);
  }

  /** `order` lists the original positions of the blocks of a reordering. */
  ghost predicate Permutation(order: seq<nat>, n: nat) {
    && |order| == n
    && (forall i | 0 <= i < n :: order[i] < n)
    && (forall i, j | 0 <= i < j < n :: order[i] != order[j])
    && (forall k | 0 <= k < n :: k in order)
  }

  function Reordered(bs: seq<Line>, order: seq<nat>): seq<Line>
    requires Permutation(order, |bs|)
  {
    seq(|order|, i requires 0 <= i < |order| => bs[order[i]])
  }

  /** The shuffled program around its reordered blocks. */
  function Wrapped(bs: seq<Line>): seq<Instr> {
    [Jump(Start)] + Flat(bs) + [Mark(End)]
  }

  /** Blocks of a program: none is empty, and all but the last end with a jump. */
  ghost predicate Blocks(bs: seq<Line>, p: seq<Instr>) {
    && bs != [] && Flat(bs) == p
    && (forall k | 0 <= k < |bs| :: bs[k] != [])
    && (forall k | 0 <= k < |bs| - 1 :: bs[k][|bs[k]| - 1].Jump?)
  }

  lemma {:induction false} OffsetMonotone(bs: seq<Line>, k: nat, m: nat)
    requires k < m <= |bs|
    ensures Offset(bs, k) + |bs[k]| <= Offset(bs, m)
  {
    if k < m - 1 { OffsetMonotone(bs, k, m - 1); }
  }

  /** Every instruction of a program lies in one of its blocks. */
  lemma {:induction false} Locate(bs: seq<Line>, x: nat) returns (k: nat, i: nat)
    requires x < |Flat(bs)|
    ensures k < |bs| && i < |bs[k]| && x == Offset(bs, k) + i
  {
    var n := |bs| - 1;
    OffsetFlat(bs, n);
    if x >= Offset(bs, n) {
      k, i := n, x - Offset(bs, n);
    } else {
      k, i := Locate(bs[..n], x);
      OffsetFlat(bs[..n], k);
      OffsetFlat(bs, k);
      assert bs[..n][..k] == bs[..k];
    }
  }

  /** The same label cannot stand at two places of the blocks. */
  lemma LabelOnce(bs: seq<Line>, p: seq<Instr>, k: nat, i: nat, m: nat, j: nat)
    requires Blocks(bs, p) && Unique(p) && k < |bs| && i < |bs[k]| && m < |bs| && j < |bs[m]|
    requires bs[k][i].Mark? && bs[m][j] == bs[k][i]
    ensures k == m && i == j
  {
    FlatAt(bs, k, i);
    FlatAt(bs, m, j);
    if k < m { OffsetMonotone(bs, k, m); }
    if m < k { OffsetMonotone(bs, m, k); }
  }

  /** The place of block `k` in a reordering. */
  ghost function Place(order: seq<nat>, k: nat): (w: nat)
    requires k in order
    ensures w < |order| && order[w] == k
  {
    var w :| 0 <= w < |order| && order[w] == k; w
  }

  /** A program, its blocks, and an order of the blocks. */
  ghost predicate Cut(bs: seq<Line>, p: seq<Instr>, order: seq<nat>) {
    && Blocks(bs, p) && Falls(p) && Unique(p) && Permutation(order, |bs|)
    && p[0] == Mark(Start) && p[|p| - 1] == Jump(End) && (forall i | 0 <= i < |p| :: p[i] != Mark(End))
  }

  function Shuffled(bs: seq<Line>, order: seq<nat>): seq<Instr>
    requires Permutation(order, |bs|)
  {
    Wrapped(Reordered(bs, order))
  }

  /** The address in the shuffled program of instruction `i` of block `k`. */
  ghost function Addr(bs: seq<Line>, order: seq<nat>, k: nat, i: nat): nat
    requires Permutation(order, |bs|) && k < |bs|
  {
    1 + Offset(Reordered(bs, order), Place(order, k)) + i
  }

  lemma AddrAt(bs: seq<Line>, order: seq<nat>, k: nat, i: nat)
    requires Permutation(order, |bs|) && k < |bs| && i < |bs[k]|
    ensures Addr(bs, order, k, i) < |Shuffled(bs, order)| - 1
    ensures Shuffled(bs, order)[Addr(bs, order, k, i)] == bs[k][i]
  {
    FlatAt(Reordered(bs, order), Place(order, k), i);
  }

  /** A label of the program is found at its address in the shuffled program. */
  lemma LabelFound(bs: seq<Line>, p: seq<Instr>, order: seq<nat>, k: nat, i: nat, l: Label)
    requires Cut(bs, p, order) && k < |bs| && i < |bs[k]| && bs[k][i] == Mark(l)
    ensures Find(Shuffled(bs, order), l) == Addr(bs, order, k, i)
  {
    var q := Shuffled(bs, order);
    var r := Reordered(bs, order);
    AddrAt(bs, order, k, i);
    forall x | 0 <= x < Addr(bs, order, k, i) ensures q[x] != Mark(l) {
      if x > 0 && q[x] == Mark(l) {
        var w, j := Locate(r, x - 1);
        FlatAt(r, w, j);
        LabelOnce(bs, p, k, i, order[w], j);
      }
    }
    FindAt(q, l, Addr(bs, order, k, i));
  }

  lemma EndFound(bs: seq<Line>, p: seq<Instr>, order: seq<nat>)
    requires Cut(bs, p, order)
    ensures Find(Shuffled(bs, order), End) == |Shuffled(bs, order)| - 1
  {
    var q := Shuffled(bs, order);
    var r := Reordered(bs, order);
    forall x | 0 <= x < |q| - 1 ensures q[x] != Mark(End) {
      if x > 0 {
        var w, j := Locate(r, x - 1);
        FlatAt(r, w, j);
        FlatAt(bs, order[w], j);
      }
    }
    FindAt(q, End, |q| - 1);
  }

  /** The instruction after instruction `i` of block `k`. */
  ghost function After(bs: seq<Line>, k: nat, i: nat): (nat, nat)
    requires k < |bs| && i < |bs[k]|
  {
    if i + 1 < |bs[k]| then (k, i + 1) else (k + 1, 0)
  }

  lemma AfterPlace(bs: seq<Line>, p: seq<Instr>, k: nat, i: nat)
    requires Blocks(bs, p) && k < |bs| && i < |bs[k]| && Offset(bs, k) + i < |p| - 1
    ensures var (m, j) := After(bs, k, i);
      m < |bs| && j < |bs[m]| && Offset(bs, m) + j == Offset(bs, k) + i + 1 && p[Offset(bs, k) + i + 1] == bs[m][j]
    ensures p[Offset(bs, k) + i] == bs[k][i]
  {
    OffsetFlat(bs, |bs|);
    assert bs[..|bs|] == bs;
    var (m, j) := After(bs, k, i);
    FlatAt(bs, k, i);
    FlatAt(bs, m, j);
  }

  /** Within a block addresses follow each other, and a block is left by a jump. */
  lemma AfterAddr(bs: seq<Line>, p: seq<Instr>, order: seq<nat>, k: nat, i: nat)
    requires Cut(bs, p, order) && k < |bs| && i < |bs[k]| && Offset(bs, k) + i < |p| - 1
    ensures var (m, j) := After(bs, k, i);
      m < |bs| && (bs[k][i].Jump? || Addr(bs, order, m, j) == Addr(bs, order, k, i) + 1)
  {
    hide Offset, Unique, Falls, Permutation, Flat;
    AfterPlace(bs, p, k, i);
  }

  /** One step of the shuffled program is one step of the program. */
  lemma StepSame(bs: seq<Line>, p: seq<Instr>, order: seq<nat>, k: nat, i: nat, taken: bool)
    requires Cut(bs, p, order) && k < |bs| && i < |bs[k]| && Offset(bs, k) + i < |p| - 1
    ensures var (m, j) := After(bs, k, i);
      m < |bs| && j < |bs[m]| && Offset(bs, m) + j == Offset(bs, k) + i + 1
    ensures var (m, j) := After(bs, k, i); var pc := Addr(bs, order, k, i);
      pc < |Shuffled(bs, order)| && Goes(Shuffled(bs, order), pc, taken) == Addr(bs, order, m, j)
  {
    hide Offset, Unique, Permutation, Flat, Shuffled, Blocks, After, Addr, Find;
    var (m, j) := After(bs, k, i);
    AfterPlace(bs, p, k, i);
    AfterAddr(bs, p, order, k, i);
    AddrAt(bs, order, k, i);
    if bs[k][i].Jump? || bs[k][i].Branch? {
      LabelFound(bs, p, order, m, j, bs[k][i].to);
    }
  }

  /** From any instruction on, the shuffled program does what is left of the program. */
  lemma {:induction false} Simulates(bs: seq<Line>, p: seq<Instr>, order: seq<nat>, k: nat, i: nat, taken: nat -> bool)
    requires Cut(bs, p, order) && k < |bs| && i < |bs[k]|
    ensures Offset(bs, k) + i < |p|
    ensures Exec(Shuffled(bs, order), taken, Addr(bs, order, k, i), |p| - Offset(bs, k) - i)
      == (|Shuffled(bs, order)| - 1, Visible(p[Offset(bs, k) + i..]))
    decreases |p| - Offset(bs, k) - i
  {
    hide Unique, Falls, Permutation, Flat, Shuffled, After, Addr, Find;
    var at := Offset(bs, k) + i;
    FlatAt(bs, k, i);
    AddrAt(bs, order, k, i);
    assert p[at..][1..] == p[at + 1..];
    if at == |p| - 1 {
      EndFound(bs, p, order);
    } else {
      var (m, j) := After(bs, k, i);
      StepSame(bs, p, order, k, i, taken(|p| - at));
      Simulates(bs, p, order, m, j, taken);
    }
  }

  lemma JumpFirst(q: seq<Instr>, taken: nat -> bool, l: Label, n: nat)
    requires q != [] && q[0] == Jump(l) && n > 0
    ensures Exec(q, taken, 0, n) == Exec(q, taken, Find(q, l), n - 1)
  {
    assert Goes(q, 0, taken(n)) == Find(q, l);
    assert [] + Exec(q, taken, Find(q, l), n - 1).1 == Exec(q, taken, Find(q, l), n - 1).1;
  }

  lemma Ends(bs: seq<Line>, order: seq<nat>)
    requires Permutation(order, |bs|)
    ensures var q := Shuffled(bs, order); |q| >= 2 && q[0] == Jump(Start) && q[|q| - 1] == Mark(End)
  {}

  /** Whatever the order of the blocks and the outcome of the branches, the shuffled
      program ends at its end label after the operations of the program, in order. */
  lemma ShuffledRuns(bs: seq<Line>, p: seq<Instr>, order: seq<nat>, taken: nat -> bool)
    requires Cut(bs, p, order)
    ensures var q := Shuffled(bs, order);
      q[|q| - 1] == Mark(End) && Exec(q, taken, 0, |p| + 1) == (|q| - 1, Visible(p))
  {
    hide Unique, Falls, Shuffled, Addr, Find, Visible, Exec;
    FlatAt(bs, 0, 0);
    Ends(bs, order);
    LabelFound(bs, p, order, 0, 0, Start);
    Simulates(bs, p, order, 0, 0, taken);
    assert p[0..] == p;
    JumpFirst(Shuffled(bs, order), taken, Start, |p| + 1);
  }

  // ----- the generator -----

  /** The line is an unconditional jump to the next line and nothing else. */
  predicate IsCut(l: Line) {
    |l| == 1 && l[0].Jump? && l[0].to.Uncond?
  }

  lemma Closed(blocks: seq<Line>, block: Line)
    ensures Flat(blocks + [block]) == Flat(blocks) + block
  {
    assert (blocks + [block])[..|blocks|] == blocks;
  }

  lemma NoLines(lines: seq<Line>)
    ensures Flat([]) + [] == Flat(lines[..0])
  {}

  lemma OneLine(blocks: seq<Line>, block: Line, lines: seq<Line>, i: nat)
    requires i < |lines| && Flat(blocks) + block == Flat(lines[..i])
    ensures Flat(blocks) + (block + lines[i]) == Flat(lines[..i + 1])
    ensures Flat(blocks + [block + lines[i]]) + [] == Flat(lines[..i + 1])
  {
    assert lines[..i + 1][..i] == lines[..i];
    Closed(blocks, block + lines[i]);
  }

  /** The lines are cut behind every such jump. */
  method SplitBlocks(lines: seq<Line>) returns (blocks: seq<Line>)
    requires lines != [] && lines[|lines| - 1] != [] && !IsCut(lines[|lines| - 1])
    ensures Blocks(blocks, Flat(lines))
  {
    hide Flat;
    blocks := [];
    var block: Line, i := [], 0;
    NoLines(lines);
    while i < |lines|
      invariant 0 <= i <= |lines|
      invariant Flat(blocks) + block == Flat(lines[..i])
      invariant forall k | 0 <= k < |blocks| :: blocks[k] != [] && blocks[k][|blocks[k]| - 1].Jump?
      invariant i == |lines| ==> block != []
    {
      var line := lines[i];
      OneLine(blocks, block, lines, i);
      if IsCut(line) {
        blocks, block := blocks + [block + line], [];
      } else {
        block := block + line;
      }
      i := i + 1;
    }
    assert lines[..i] == lines;
    Closed(blocks, block);
    blocks := blocks + [block];
  }

  function Swapped<T>(s: seq<T>, i: nat, j: nat): (r: seq<T>)
    requires i < |s| && j < |s|
    ensures |r| == |s|
  {
    s[i := s[j]][j := s[i]]
  }

  lemma SwapPermutation(order: seq<nat>, n: nat, i: nat, j: nat)
    requires Permutation(order, n) && i < n && j < n
    ensures Permutation(Swapped(order, i, j), n)
  {
    var after := Swapped(order, i, j);
    forall k | 0 <= k < n ensures k in after {
      assert k in order;
      var w :| 0 <= w < n && order[w] == k;
      assert after[if w == i then j else if w == j then i else w] == k;
    }
  }

  lemma SwapReordered(bs: seq<Line>, order: seq<nat>, i: nat, j: nat)
    requires Permutation(order, |bs|) && i < |bs| && j < |bs|
    ensures |Reordered(bs, order)| == |bs| && Permutation(Swapped(order, i, j), |bs|)
    ensures Reordered(bs, Swapped(order, i, j)) == Swapped(Reordered(bs, order), i, j)
  {
    SwapPermutation(order, |bs|, i, j);
  }

  lemma Identity(bs: seq<Line>)
    ensures Permutation(seq(|bs|, i => i), |bs|) && Reordered(bs, seq(|bs|, i => i)) == bs
  {
    var order: seq<nat> := seq(|bs|, i => i);
    forall k | 0 <= k < |bs| ensures k in order { assert order[k] == k; }
  }

  /** The positions after the rounds of random.shuffle that are left, from place `i - 1` down. */
  function Drawn(order: seq<nat>, draws: nat -> nat, i: nat): (r: seq<nat>)
    requires i <= |order|
    ensures |r| == |order|
    decreases i
  {
    if i <= 1 then order else Drawn(Swapped(order, i - 1, draws(i - 1) % i), draws, i - 1)
  }

  lemma {:induction false} DrawnSame(order: seq<nat>, d: nat -> nat, d': nat -> nat, i: nat)
    requires i <= |order| && forall k: nat | k < i :: d(k) == d'(k)
    ensures Drawn(order, d, i) == Drawn(order, d', i)
    decreases i
  {
    if i > 1 { DrawnSame(Swapped(order, i - 1, d(i - 1) % i), d, d', i - 1); }
  }

  /** The two agree from `i` on, and hold the same numbers before it. */
  ghost predicate AgreeFrom(order: seq<nat>, goal: seq<nat>, i: nat) {
    && |order| == |goal| && i <= |order| && Distinct(order) && Distinct(goal)
    && (forall k | i <= k < |order| :: order[k] == goal[k])
    && (forall x :: x in order[..i] <==> x in goal[..i])
  }

  lemma AgreeSwap(order: seq<nat>, goal: seq<nat>, i: nat, j: nat)
    requires AgreeFrom(order, goal, i) && 0 < i && j < i && order[j] == goal[i - 1]
    ensures AgreeFrom(Swapped(order, i - 1, j), goal, i - 1)
  {
    var m, r := i - 1, Swapped(order, i - 1, j);
    assert goal[..i] == goal[..m] + [goal[m]];
    forall x ensures x in r[..m] <==> x in goal[..m] {
      assert x == goal[m] ==> x !in goal[..m];
      assert x in r[..m] ==> x in order[..i] && x != goal[m];
      if x in order[..i] && x != goal[m] {
        var k :| 0 <= k < i && order[k] == x;
        assert r[if k == m then j else k] == x;
      }
    }
  }

  /** The same numbers but for one. */
  function Also(draws: nat -> nat, i: nat, j: nat): nat -> nat {
    k => if k == i then j else draws(k)
  }

  lemma AlsoDraws(order: seq<nat>, draws: nat -> nat, i: nat, j: nat)
    requires 1 < i <= |order| && j < i
    ensures Drawn(order, Also(draws, i - 1, j), i) == Drawn(Swapped(order, i - 1, j), draws, i - 1)
  {
    var more, r := Also(draws, i - 1, j), Swapped(order, i - 1, j);
    assert more(i - 1) % i == j;
    DrawnSame(r, more, draws, i - 1);
  }

  lemma AgreeDone(order: seq<nat>, goal: seq<nat>, i: nat)
    requires AgreeFrom(order, goal, i) && i <= 1
    ensures order == goal
  {
    if i == 1 { assert order[0] in order[..1] && goal[..1] == [goal[0]]; }
  }

  lemma FindGoal(order: seq<nat>, goal: seq<nat>, i: nat) returns (j: nat)
    requires AgreeFrom(order, goal, i) && i > 0
    ensures |goal| == |order| >= i && j < i && order[j] == goal[i - 1]
  {
    assert goal[i - 1] in goal[..i];
    j :| 0 <= j < i && order[j] == goal[i - 1];
  }

  lemma {:induction false} EveryGoalDrawn(order: seq<nat>, goal: seq<nat>, i: nat) returns (draws: nat -> nat)
    requires AgreeFrom(order, goal, i)
    ensures Drawn(order, draws, i) == goal
    decreases i
  {
    hide AgreeFrom, Swapped, Also;
    if i <= 1 {
      draws := k => 0;
      AgreeDone(order, goal, i);
    } else {
      var j := FindGoal(order, goal, i);
      AgreeSwap(order, goal, i, j);
      var rest := EveryGoalDrawn(Swapped(order, i - 1, j), goal, i - 1);
      draws := Also(rest, i - 1, j);
      AlsoDraws(order, rest, i, j);
    }
  }

  function InOrder(n: nat): seq<nat> { seq(n, i => i) }

  /** Every order of the blocks is drawn by some numbers. */
  lemma EveryOrderDrawn(order: seq<nat>, n: nat) returns (draws: nat -> nat)
    requires Permutation(order, n)
    ensures Drawn(InOrder(n), draws, n) == order
  {
    var start := InOrder(n);
    forall x ensures x in start[..n] <==> x in order[..n] {
      assert order[..n] == order && start[..n] == start;
      if x in order { assert start[x] == x; }
    }
    draws := EveryGoalDrawn(start, order, n);
  }

  /** random.shuffle, with the numbers it draws. */
  method ShuffleInPlace(a: array<Line>, draws: nat -> nat) returns (ghost order: seq<nat>)
    modifies a
    ensures Permutation(order, a.Length) && a[..] == Reordered(old(a[..]), order)
    ensures order == Drawn(InOrder(a.Length), draws, a.Length)
  {
    hide Permutation, Reordered;
    ghost var was := a[..];
    order := InOrder(a.Length);
    Identity(was);
    var i := a.Length;
    while i > 1
      invariant 0 <= i <= a.Length
      invariant Permutation(order, |was|) && a[..] == Reordered(was, order)
      invariant |order| == a.Length && Drawn(order, draws, i) == Drawn(InOrder(a.Length), draws, a.Length)
    {
      i := i - 1;
      var j := draws(i) % (i + 1);
      SwapReordered(was, order, i, j);
      a[i], a[j] := a[j], a[i];
      order := Swapped(order, i, j);
    }
  }

  lemma FlatTwo(a: Line, b: Line)
    ensures Flat([a, b]) == a + b
  {
    assert [a, b] == [a] + [b];
    FlatCat([a], [b]);
    FlatOne(a);
    FlatOne(b);
  }

  lemma NoText()
    ensures All(Text([], [])) == []
  {}

  function Steps(ks: seq<Kind>, u: nat, c: nat): nat {
    |Whole(ks, u, c)| + 1
  }

  /** From its first instruction the program reaches its end label in `n` steps, after these operations. */
  ghost predicate Does(q: seq<Instr>, taken: nat -> bool, n: nat, ops: seq<nat>) {
    q != [] && q[|q| - 1] == Mark(End) && Exec(q, taken, 0, n) == (|q| - 1, ops)
  }

  /** The generator, with its label numbers for one code block. */
  lemma CutOf(ks: seq<Kind>, u: nat, c: nat, blocks: seq<Line>, order: seq<nat>)
    requires Blocks(blocks, Whole(ks, u, c)) && Permutation(order, |blocks|)
    ensures Cut(blocks, Whole(ks, u, c), order)
  {
    hide Falls, Unique, Flat, Blocks, Permutation, Code;
    WholeShape(ks, u, c);
  }

  /** Whatever the order of the blocks, the program does what was asked for. */
  lemma AnyOrderDoes(ks: seq<Kind>, u: nat, c: nat, blocks: seq<Line>, order: seq<nat>)
    requires Blocks(blocks, Whole(ks, u, c)) && Permutation(order, |blocks|)
    ensures forall taken: nat -> bool ::
      Does([Jump(Start)] + Flat(Reordered(blocks, order)) + [Mark(End)], taken, Steps(ks, u, c), Ops(ks))
  {
    hide Falls, Unique, Flat, Blocks, Permutation, Reordered, Visible, Exec, Ops, Cut;
    CutOf(ks, u, c, blocks, order);
    WholeVisible(ks, u, c);
    forall taken: nat -> bool
      ensures Does([Jump(Start)] + Flat(Reordered(blocks, order)) + [Mark(End)], taken, Steps(ks, u, c), Ops(ks))
    {
      ShuffledRuns(blocks, Whole(ks, u, c), order, taken);
    }
  }

  class Generator {
    var brUncond: nat
    var brCond: nat

    constructor () {
      brUncond, brCond := 0, 0;
    }

    method AsmInst(k: Kind) returns (t: Text)
      modifies this
      ensures All(t) == Emitted(k, old(brUncond), old(brCond))
      ensures t.tail == [] <==> !k.Plain? || k.lineEnd
      ensures brUncond == NextU(k, old(brUncond)) && brCond == NextC(k, old(brCond))
    {
      match k
      case Plain(code, lineEnd) =>
        t := if lineEnd then Text([[Op(code)]], []) else Text([], [Op(code)]);
        FlatOne([Op(code)]);
      case Unconditional =>
        var l := Uncond(brUncond);
        t := Text([[Jump(l)], [Mark(l)]], []);
        FlatTwo([Jump(l)], [Mark(l)]);
        brUncond := brUncond + 1;
      case Conditional(test) =>
        var l := Cond(brCond);
        t := Text([[Op(test)], [Branch(l)], [Mark(l)]], []);
        assert t.lines == [[Op(test)]] + [[Branch(l)], [Mark(l)]];
        FlatCat([[Op(test)]], [[Branch(l)], [Mark(l)]]);
        FlatOne([Op(test)]);
        FlatTwo([Branch(l)], [Mark(l)]);
        brCond := brCond + 1;
    }

    /** The text of all requests, one after the other. */
    method AsmText(ks: seq<Kind>) returns (t: Text)
      modifies this
      ensures All(t) == Code(ks, old(brUncond), old(brCond))
    {
      hide All, Flat, Emitted;
      t := Text([], []);
      NoText();
      var i := 0;
      assert ks[0..] == ks;
      while i < |ks|
        invariant 0 <= i <= |ks|
        invariant All(t) + Code(ks[i..], brUncond, brCond) == Code(ks, old(brUncond), old(brCond))
      {
        assert ks[i..][1..] == ks[i + 1..];
        var inst := AsmInst(ks[i]);
        AllCat(t, inst);
        assert All(t) + (All(inst) + Code(ks[i + 1..], brUncond, brCond)) ==
          All(t) + All(inst) + Code(ks[i + 1..], brUncond, brCond);
        t := Cat(t, inst);
        i := i + 1;
      }
    }

    /** The lines before they are shuffled. */
    method AsmLines(ks: seq<Kind>) returns (lines: seq<Line>)
      modifies this
      ensures Flat(lines) == Whole(ks, old(brUncond), old(brCond))
      ensures lines != [] && lines[|lines| - 1] != [] && !IsCut(lines[|lines| - 1])
    {
      var t := AsmText(ks);
      var head, foot := Text([[Mark(Start)]], []), Text([[Jump(End)]], []);
      FlatOne([Mark(Start)]);
      FlatOne([Jump(End)]);
      AllCat(head, t);
      AllCat(Cat(head, t), foot);
      t := Cat(Cat(head, t), foot);
      assert All(t) == Flat(t.lines);
      lines := t.lines;
    }

    /** generate_asm_block, up to the choice of registers and addresses. */
    method GenerateAsmBlock(ks: seq<Kind>, draws: nat -> nat) returns (q: seq<Instr>)
      modifies this
      ensures forall taken: nat -> bool :: Does(q, taken, Steps(ks, old(brUncond), old(brCond)), Ops(ks))
    {
      hide Falls, Unique, Flat, Blocks, Permutation, Reordered, Whole, Does, Ops, Steps;
      var lines := AsmLines(ks);
      var blocks := SplitBlocks(lines);
      var a := new Line[|blocks|](i requires 0 <= i < |blocks| => blocks[i]);
      assert a[..] == blocks;
      ghost var order := ShuffleInPlace(a, draws);
      q := [Jump(Start)] + Flat(a[..]) + [Mark(End)];
      AnyOrderDoes(ks, old(brUncond), old(brCond), blocks, order);
    }
  }
}
