/** Supply stacks (`src/day5.rs`): a drawing of crate stacks is read into a
    board, move instructions are executed on it one after the other, and
    the answer spells the crates on top of the stacks. Part 1 moves crates
    one at a time, so a moved group lands reversed; part 2 moves a group
    at once, keeping its order. */
module Crates {
  import opened Results
  import opened Text

  /** A stack lists its crates from the bottom up: the top crate is last,
      where `Vec::push` and `Vec::pop` work. */
  type Stack = seq<char>

  /** `Board`: the stack count it was made with, and the stacks. */
  datatype Board = Board(num: nat, stacks: seq<Stack>)

  /** `Instruction`: move `num` crates from stack `from` to stack `to`;
      stacks are numbered from 1. */
  datatype Instruction = Instruction(num: nat, from: nat, to: nat)

  /** How an execution ended: it ran to the end, it returned an error with
      the source's message, or it panicked (a stack number 0 makes the
      index `from - 1` or `to - 1` wrap below zero). */
  datatype Status = Done | Failed(reason: string) | Aborted

  /** `Board::new`: `num` empty stacks. */
  function NewBoard(num: nat): (b: Board)
    ensures b.num == num && |b.stacks| == num
    ensures forall k :: 0 <= k < num ==> b.stacks[k] == []
  {
    Board(num, seq(num, k => []))
  }

  /** The crates of a stack, top first: the order in which popping them
      one at a time yields them. */
  function Reversed(s: seq<char>): (r: seq<char>)
    ensures |r| == |s|
  {
    if |s| == 0 then [] else [s[|s| - 1]] + Reversed(s[..|s| - 1])
  }

  /** Position `i` of the reversal holds position `|s| - 1 - i`. */
  lemma {:induction false} ReversedAt(s: seq<char>)
    ensures forall i :: 0 <= i < |s| ==> Reversed(s)[i] == s[|s| - 1 - i]
  {
    if |s| > 0 {
      ReversedAt(s[..|s| - 1]);
    }
  }

  lemma ReversedTwice(s: seq<char>)
    ensures Reversed(Reversed(s)) == s
  {
    ReversedAt(s);
    ReversedAt(Reversed(s));
  }

  lemma ReversedKeepsCrates(s: seq<char>)
    ensures multiset(Reversed(s)) == multiset(s)
  {
    if |s| > 0 {
      ReversedKeepsCrates(s[..|s| - 1]);
      assert s == s[..|s| - 1] + [s[|s| - 1]];
    }
  }

  /** The top `k` crates of a stack, bottom first. */
  function Top(s: Stack, k: nat): Stack
    requires k <= |s|
  {
    s[|s| - k..]
  }

  /** What is left when the top `k` crates are taken. */
  function Rest(s: Stack, k: nat): Stack
    requires k <= |s|
  {
    s[..|s| - k]
  }

  // ---------------------------------------------------------------------
  // The two move loops, one iteration at a time
  // ---------------------------------------------------------------------

  /** The loop of the one-at-a-time policy (`in_order == false`): each
      iteration pops the top crate of `from` and pushes it on `to`. An empty
      source ends it with "Not enough items", keeping the crates already
      moved. */
  function MoveOneByOne(stacks: seq<Stack>, num: nat, from: nat, to: nat): (r: (seq<Stack>, Status))
    requires from <= |stacks| && to <= |stacks|
    ensures |r.0| == |stacks|
    ensures r.1 != Done ==> num > 0
    decreases num
  {
    if num == 0 then (stacks, Done)
    else if from == 0 then (stacks, Aborted)
    else if |stacks[from - 1]| == 0 then (stacks, Failed("Not enough items"))
    else
      var src := stacks[from - 1];
      var popped := stacks[from - 1 := src[..|src| - 1]];
      if to == 0 then (popped, Aborted)
      else MoveOneByOne(popped[to - 1 := popped[to - 1] + [src[|src| - 1]]], num - 1, from, to)
  }

  /** The first loop of the in-order policy (`in_order == true`): pop `num`
      crates of `from` into a buffer. An empty source ends it with "Not
      enough items"; the buffer is then dropped with the crates in it. */
  function TakeIntoBuffer(stacks: seq<Stack>, num: nat, from: nat, temp: seq<char>)
    : (r: (seq<Stack>, seq<char>, Status))
    requires from <= |stacks|
    ensures |r.0| == |stacks|
    ensures r.2 != Aborted ==> from > 0 || num == 0
    decreases num
  {
    if num == 0 then (stacks, temp, Done)
    else if from == 0 then (stacks, temp, Aborted)
    else if |stacks[from - 1]| == 0 then (stacks, temp, Failed("Not enough items"))
    else
      var src := stacks[from - 1];
      TakeIntoBuffer(stacks[from - 1 := src[..|src| - 1]], num - 1, from, temp + [src[|src| - 1]])
  }

  /** The second loop of the in-order policy: `count` times, pop the buffer
      and push the crate on `to`; an empty buffer would fail with "Not
      enough in temp". */
  function DrainBuffer(stacks: seq<Stack>, to: nat, temp: seq<char>, count: nat): (r: (seq<Stack>, Status))
    requires to <= |stacks|
    ensures |r.0| == |stacks|
    decreases count
  {
    if count == 0 then (stacks, Done)
    else if to == 0 then (stacks, Aborted)
    else if |temp| == 0 then (stacks, Failed("Not enough in temp"))
    else DrainBuffer(stacks[to - 1 := stacks[to - 1] + [temp[|temp| - 1]]], to, temp[..|temp| - 1], count - 1)
  }

  /** `Board::execute`. A stack number beyond the board is an "Invalid
      location" error that leaves the board as it was; any other error
      keeps what the loops did before it. */
  function Execute(b: Board, inst: Instruction, inOrder: bool): (r: (Board, Status))
    ensures r.0.num == b.num && |r.0.stacks| == |b.stacks|
  {
    if inst.from > |b.stacks| || inst.to > |b.stacks| then (b, Failed("Invalid location"))
    else if inOrder then
      var (taken, temp, status) := TakeIntoBuffer(b.stacks, inst.num, inst.from, []);
      if status != Done then (Board(b.num, taken), status)
      else
        var (stacks, status') := DrainBuffer(taken, inst.to, temp, |temp|);
        (Board(b.num, stacks), status')
    else
      var (stacks, status) := MoveOneByOne(b.stacks, inst.num, inst.from, inst.to);
      (Board(b.num, stacks), status)
  }

  // ---------------------------------------------------------------------
  // Net effect of the loops
  // ---------------------------------------------------------------------

  /** Taking the top `k` crates is taking the top one, then `k - 1` more. */
  lemma TopStep(src: Stack, k: nat)
    requires 0 < k <= |src|
    ensures Rest(src[..|src| - 1], k - 1) == Rest(src, k)
    ensures Reversed(Top(src, k)) == [src[|src| - 1]] + Reversed(Top(src[..|src| - 1], k - 1))
  {
    assert Top(src, k) == Top(src[..|src| - 1], k - 1) + [src[|src| - 1]];
  }

  /** Taking no crates leaves the stack and moves nothing. */
  lemma TopNone(src: Stack)
    ensures Rest(src, 0) == src && Top(src, 0) == [] && Reversed(Top(src, 0)) == []
  {
  }

  /** Writing back what a stack holds changes nothing. */
  lemma UpdateSame(stacks: seq<Stack>, i: nat, x: Stack)
    requires i < |stacks| && x == stacks[i]
    ensures stacks[i := x] == stacks
  {
  }

  lemma AppendAssoc(a: seq<char>, b: seq<char>, c: seq<char>)
    ensures (a + b) + c == a + (b + c)
  {
  }

  /** A stack written twice keeps the second value. */
  lemma UpdateOver(stacks: seq<Stack>, i: nat, x: Stack, y: Stack)
    requires i < |stacks|
    ensures stacks[i := x][i := y] == stacks[i := y]
  {
  }

  /** Two updates of two different stacks, overwritten by two more. */
  lemma UpdateTwice(stacks: seq<Stack>, i: nat, j: nat, x: Stack, y: Stack, x': Stack, y': Stack)
    requires i < |stacks| && j < |stacks| && i != j
    ensures stacks[i := x][j := y][i := x'][j := y'] == stacks[i := x'][j := y']
  {
  }

  /** The crates the one-at-a-time loop moves from `src`: `num` of them,
      or all when there are fewer. */
  function Moving(src: Stack, num: nat): (k: nat)
    ensures k <= |src| && k <= num
    ensures k == num || k == |src|
  {
    if num <= |src| then num else |src|
  }

  /** The expected result of the one-at-a-time loop between two different
      stacks: the source loses its top crates and the destination gains them
      reversed; running out of crates is "Not enough items". */
  function OneByOneOutcome(stacks: seq<Stack>, num: nat, from: nat, to: nat): (seq<Stack>, Status)
    requires 1 <= from <= |stacks| && 1 <= to <= |stacks|
  {
    var src := stacks[from - 1];
    var k := Moving(src, num);
    (stacks[from - 1 := Rest(src, k)][to - 1 := stacks[to - 1] + Reversed(Top(src, k))],
     if num <= |src| then Done else Failed("Not enough items"))
  }

  /** The loop's first iteration followed by the rest meets the expected
      result if the rest does. */
  lemma MoveOneByOneStep(stacks: seq<Stack>, num: nat, from: nat, to: nat)
    requires 1 <= from <= |stacks| && 1 <= to <= |stacks| && from != to
    requires num > 0 && |stacks[from - 1]| > 0
    requires var src := stacks[from - 1];
             var next := stacks[from - 1 := src[..|src| - 1]][to - 1 := stacks[to - 1] + [src[|src| - 1]]];
             MoveOneByOne(next, num - 1, from, to) == OneByOneOutcome(next, num - 1, from, to)
    ensures MoveOneByOne(stacks, num, from, to) == OneByOneOutcome(stacks, num, from, to)
  {
    var src := stacks[from - 1];
    var c := src[|src| - 1];
    var next := stacks[from - 1 := src[..|src| - 1]][to - 1 := stacks[to - 1] + [c]];
    assert MoveOneByOne(stacks, num, from, to) == MoveOneByOne(next, num - 1, from, to);
    assert next[from - 1] == src[..|src| - 1];
    assert next[to - 1] == stacks[to - 1] + [c];
    var k := Moving(src, num);
    assert Moving(src[..|src| - 1], num - 1) == k - 1;
    TopStep(src, k);
    assert next[to - 1] + Reversed(Top(src[..|src| - 1], k - 1)) == stacks[to - 1] + Reversed(Top(src, k));
    UpdateTwice(stacks, from - 1, to - 1, src[..|src| - 1], stacks[to - 1] + [c],
                Rest(src, k), stacks[to - 1] + Reversed(Top(src, k)));
  }

  /** One at a time between two different stacks: the source loses its top
      `k` crates and the destination gains them reversed, where `k` is
      `num` or, when the source runs out, all of it. */
  lemma {:induction false} MoveOneByOneEffect(stacks: seq<Stack>, num: nat, from: nat, to: nat)
    requires 1 <= from <= |stacks| && 1 <= to <= |stacks| && from != to
    ensures MoveOneByOne(stacks, num, from, to) == OneByOneOutcome(stacks, num, from, to)
    decreases num
  {
    var src := stacks[from - 1];
    if num > 0 && |src| > 0 {
      var next := stacks[from - 1 := src[..|src| - 1]][to - 1 := stacks[to - 1] + [src[|src| - 1]]];
      MoveOneByOneEffect(next, num - 1, from, to);
      MoveOneByOneStep(stacks, num, from, to);
    } else {
      TopNone(src);
      assert stacks[to - 1] + [] == stacks[to - 1];
      UpdateSame(stacks, from - 1, src);
      UpdateSame(stacks, to - 1, stacks[to - 1] + []);
    }
  }

  /** One at a time onto the same stack: every crate lands where it was
      taken from, so the stacks never change; only an empty stack fails. */
  lemma {:induction false} MoveOneByOneInPlace(stacks: seq<Stack>, num: nat, from: nat)
    requires 1 <= from <= |stacks|
    ensures MoveOneByOne(stacks, num, from, from) ==
              (stacks, if num == 0 || |stacks[from - 1]| > 0 then Done else Failed("Not enough items"))
    decreases num
  {
    if num > 0 && |stacks[from - 1]| > 0 {
      var src := stacks[from - 1];
      var popped := stacks[from - 1 := src[..|src| - 1]];
      assert src[..|src| - 1] + [src[|src| - 1]] == src;
      assert popped[from - 1 := popped[from - 1] + [src[|src| - 1]]] == stacks;
      MoveOneByOneInPlace(stacks, num - 1, from);
    }
  }

  /** The first in-order loop: the source loses its top `k` crates and the
      buffer gains them top first. */
  lemma TakeIntoBufferEffect(stacks: seq<Stack>, num: nat, from: nat, temp: seq<char>)
    requires 1 <= from <= |stacks|
    ensures var src := stacks[from - 1];
            var k := if num <= |src| then num else |src|;
            TakeIntoBuffer(stacks, num, from, temp) ==
              (stacks[from - 1 := Rest(src, k)], temp + Reversed(Top(src, k)),
               if num <= |src| then Done else Failed("Not enough items"))
  {
    TakeIntoBufferStacks(stacks, num, from, temp);
    TakeIntoBufferTaken(stacks, num, from, temp);
    TakeIntoBufferStatus(stacks, num, from, temp);
  }

  lemma {:induction false} TakeIntoBufferStacks(stacks: seq<Stack>, num: nat, from: nat, temp: seq<char>)
    requires 1 <= from <= |stacks|
    ensures var src := stacks[from - 1];
            TakeIntoBuffer(stacks, num, from, temp).0 == stacks[from - 1 := Rest(src, Moving(src, num))]
    decreases num
  {
    var src := stacks[from - 1];
    if num > 0 && |src| > 0 {
      var src' := src[..|src| - 1];
      var next := stacks[from - 1 := src'];
      var k := Moving(src, num);
      TakeIntoBufferStacks(next, num - 1, from, temp + [src[|src| - 1]]);
      assert next[from - 1] == src';
      assert Moving(src', num - 1) == k - 1;
      TopStep(src, k);
      UpdateOver(stacks, from - 1, src', Rest(src, k));
    } else {
      TopNone(src);
      UpdateSame(stacks, from - 1, Rest(src, 0));
    }
  }

  lemma {:induction false} TakeIntoBufferTaken(stacks: seq<Stack>, num: nat, from: nat, temp: seq<char>)
    requires 1 <= from <= |stacks|
    ensures var src := stacks[from - 1];
            TakeIntoBuffer(stacks, num, from, temp).1 == temp + Reversed(Top(src, Moving(src, num)))
    decreases num
  {
    var src := stacks[from - 1];
    if num > 0 && |src| > 0 {
      var c := src[|src| - 1];
      var src' := src[..|src| - 1];
      var next := stacks[from - 1 := src'];
      var k := Moving(src, num);
      TakeIntoBufferTaken(next, num - 1, from, temp + [c]);
      assert next[from - 1] == src';
      assert Moving(src', num - 1) == k - 1;
      var rs := Reversed(Top(src', k - 1));
      assert TakeIntoBuffer(stacks, num, from, temp).1 == (temp + [c]) + rs;
      TopStep(src, k);
      AppendAssoc(temp, [c], rs);
    } else {
      TopNone(src);
      assert temp + [] == temp;
    }
  }

  lemma {:induction false} TakeIntoBufferStatus(stacks: seq<Stack>, num: nat, from: nat, temp: seq<char>)
    requires 1 <= from <= |stacks|
    ensures TakeIntoBuffer(stacks, num, from, temp).2 ==
              if num <= |stacks[from - 1]| then Done else Failed("Not enough items")
    decreases num
  {
    var src := stacks[from - 1];
    if num > 0 && |src| > 0 {
      var next := stacks[from - 1 := src[..|src| - 1]];
      TakeIntoBufferStatus(next, num - 1, from, temp + [src[|src| - 1]]);
      assert next[from - 1] == src[..|src| - 1];
    }
  }

  /** The second in-order loop never runs the buffer dry: the destination
      gains the whole buffer, its last crate lowest. */
  lemma {:induction false} DrainBufferEffect(stacks: seq<Stack>, to: nat, temp: seq<char>)
    requires 1 <= to <= |stacks|
    ensures DrainBuffer(stacks, to, temp, |temp|) == (stacks[to - 1 := stacks[to - 1] + Reversed(temp)], Done)
    decreases |temp|
  {
    if |temp| > 0 {
      var c := temp[|temp| - 1];
      var next := stacks[to - 1 := stacks[to - 1] + [c]];
      DrainBufferEffect(next, to, temp[..|temp| - 1]);
      assert stacks[to - 1] + [c] + Reversed(temp[..|temp| - 1]) == stacks[to - 1] + Reversed(temp);
      assert next[to - 1 := next[to - 1] + Reversed(temp[..|temp| - 1])]
          == stacks[to - 1 := stacks[to - 1] + Reversed(temp)];
    } else {
      assert stacks[to - 1] + Reversed(temp) == stacks[to - 1];
      assert stacks[to - 1 := stacks[to - 1] + Reversed(temp)] == stacks;
    }
  }

  /** The expected result of the in-order policy between two different
      stacks: the destination gains the source's top `num` crates in their
      order; with too few crates the source is emptied into the buffer,
      which is lost with the "Not enough items" error. */
  function InOrderOutcome(stacks: seq<Stack>, num: nat, from: nat, to: nat): (seq<Stack>, Status)
    requires 1 <= from <= |stacks| && 1 <= to <= |stacks|
  {
    var src := stacks[from - 1];
    if num <= |src| then (stacks[from - 1 := Rest(src, num)][to - 1 := stacks[to - 1] + Top(src, num)], Done)
    else (stacks[from - 1 := []], Failed("Not enough items"))
  }

  // ---------------------------------------------------------------------
  // Net effect of an instruction
  // ---------------------------------------------------------------------

  /** A stack number beyond the board is rejected before anything moves. */
  lemma ExecuteRejectsOutside(b: Board, inst: Instruction, inOrder: bool)
    requires inst.from > |b.stacks| || inst.to > |b.stacks|
    ensures Execute(b, inst, inOrder) == (b, Failed("Invalid location"))
  {
  }

  /** Part 1's policy between two different stacks of the board. */
  lemma ExecuteOneByOne(b: Board, inst: Instruction)
    requires 1 <= inst.from <= |b.stacks| && 1 <= inst.to <= |b.stacks| && inst.from != inst.to
    ensures var (stacks, status) := OneByOneOutcome(b.stacks, inst.num, inst.from, inst.to);
            Execute(b, inst, false) == (Board(b.num, stacks), status)
  {
    MoveOneByOneEffect(b.stacks, inst.num, inst.from, inst.to);
  }

  /** Part 2's policy between two different stacks of the board. */
  lemma ExecuteInOrder(b: Board, inst: Instruction)
    requires 1 <= inst.from <= |b.stacks| && 1 <= inst.to <= |b.stacks| && inst.from != inst.to
    ensures var (stacks, status) := InOrderOutcome(b.stacks, inst.num, inst.from, inst.to);
            Execute(b, inst, true) == (Board(b.num, stacks), status)
  {
    var src := b.stacks[inst.from - 1];
    TakeIntoBufferEffect(b.stacks, inst.num, inst.from, []);
    var k := if inst.num <= |src| then inst.num else |src|;
    var taken := b.stacks[inst.from - 1 := Rest(src, k)];
    assert [] + Reversed(Top(src, k)) == Reversed(Top(src, k));
    if inst.num <= |src| {
      DrainBufferEffect(taken, inst.to, Reversed(Top(src, k)));
      ReversedTwice(Top(src, k));
      assert taken[inst.to - 1] == b.stacks[inst.to - 1];
    } else {
      assert Rest(src, k) == [];
    }
  }

  /** Moving crates from a stack onto itself leaves the board as it was,
      under both policies, when the stack holds enough crates; one at a time
      it even suffices that the stack is not empty. */
  lemma ExecuteInPlace(b: Board, inst: Instruction, inOrder: bool)
    requires 1 <= inst.from <= |b.stacks| && inst.to == inst.from
    requires inst.num <= |b.stacks[inst.from - 1]| || (!inOrder && |b.stacks[inst.from - 1]| > 0)
    ensures Execute(b, inst, inOrder) == (b, Done)
  {
    if inOrder {
      InOrderInPlace(b, inst);
    } else {
      MoveOneByOneInPlace(b.stacks, inst.num, inst.from);
    }
  }

  lemma InOrderInPlace(b: Board, inst: Instruction)
    requires 1 <= inst.from <= |b.stacks| && inst.to == inst.from
    requires inst.num <= |b.stacks[inst.from - 1]|
    ensures Execute(b, inst, true) == (b, Done)
  {
    var (num, from) := (inst.num, inst.from);
    var src := b.stacks[from - 1];
    var taken := b.stacks[from - 1 := Rest(src, num)];
    var temp := Reversed(Top(src, num));
    InPlaceTake(b.stacks, num, from);
    InPlaceDrain(b.stacks, num, from);
    ExecuteInOrderLoops(b, inst, taken, temp, b.stacks);
  }

  /** Taking `num` crates off a stack that holds them leaves its bottom part. */
  lemma InPlaceTake(stacks: seq<Stack>, num: nat, from: nat)
    requires 1 <= from <= |stacks| && num <= |stacks[from - 1]|
    ensures var src := stacks[from - 1];
            TakeIntoBuffer(stacks, num, from, []) ==
              (stacks[from - 1 := Rest(src, num)], Reversed(Top(src, num)), Done)
  {
    var src := stacks[from - 1];
    TakeIntoBufferEffect(stacks, num, from, []);
    assert [] + Reversed(Top(src, num)) == Reversed(Top(src, num));
  }

  /** Pushing the taken crates back onto the same stack restores it. */
  lemma InPlaceDrain(stacks: seq<Stack>, num: nat, from: nat)
    requires 1 <= from <= |stacks| && num <= |stacks[from - 1]|
    ensures var src := stacks[from - 1];
            var temp := Reversed(Top(src, num));
            DrainBuffer(stacks[from - 1 := Rest(src, num)], from, temp, |temp|) == (stacks, Done)
  {
    var src := stacks[from - 1];
    var taken := stacks[from - 1 := Rest(src, num)];
    var temp := Reversed(Top(src, num));
    DrainBufferEffect(taken, from, temp);
    ReversedTwice(Top(src, num));
    assert taken[from - 1] + Reversed(temp) == src by {
      assert taken[from - 1] == Rest(src, num);
      assert Rest(src, num) + Top(src, num) == src;
    }
    UpdateOver(stacks, from - 1, Rest(src, num), src);
    UpdateSame(stacks, from - 1, src);
  }

  /** The in-order policy is its two loops, one after the other. */
  lemma ExecuteInOrderLoops(b: Board, inst: Instruction, taken: seq<Stack>, temp: seq<char>, after: seq<Stack>)
    requires inst.from <= |b.stacks| && inst.to <= |b.stacks|
    requires TakeIntoBuffer(b.stacks, inst.num, inst.from, []) == (taken, temp, Done)
    requires DrainBuffer(taken, inst.to, temp, |temp|) == (after, Done)
    ensures Execute(b, inst, true) == (Board(b.num, after), Done)
  {
  }

  /** Stack number 0 panics as soon as the loop touches it: the source at
      the first pop, the destination at the first push. Moving one at a
      time, that push follows the first pop, so one crate on the source is
      enough to reach it; in order, it follows all `num` pops, so a source
      with fewer crates fails with "Not enough items" first. */
  lemma ExecuteStackZero(b: Board, inst: Instruction, inOrder: bool)
    requires inst.num > 0 && inst.from <= |b.stacks| && inst.to <= |b.stacks|
    requires inst.from == 0 || inst.to == 0
    ensures inst.from == 0 ==> Execute(b, inst, inOrder).1 == Aborted
    ensures inst.from > 0 ==>
      var n := |b.stacks[inst.from - 1]|;
      Execute(b, inst, inOrder).1
        == if (if inOrder then inst.num <= n else n > 0) then Aborted else Failed("Not enough items")
  {
    if inst.from != 0 && inOrder {
      TakeIntoBufferEffect(b.stacks, inst.num, inst.from, []);
    }
  }

  /** All crates on the stacks, as a bag. */
  function Crates(stacks: seq<Stack>): multiset<char>
  {
    if |stacks| == 0 then multiset{} else Crates(stacks[..|stacks| - 1]) + multiset(stacks[|stacks| - 1])
  }

  /** Replacing one stack swaps its crates in the bag. */
  lemma {:induction false} CratesUpdate(stacks: seq<Stack>, i: nat, x: Stack)
    requires i < |stacks|
    ensures Crates(stacks[i := x]) + multiset(stacks[i]) == Crates(stacks) + multiset(x)
    decreases |stacks|
  {
    var last := |stacks| - 1;
    if i < last {
      CratesUpdate(stacks[..last], i, x);
      assert stacks[i := x][..last] == stacks[..last][i := x];
      assert stacks[i := x][last] == stacks[last];
      assert stacks[..last][i] == stacks[i];
      var a, b, l := Crates(stacks[..last][i := x]), Crates(stacks[..last]), multiset(stacks[last]);
      assert Crates(stacks[i := x]) == a + l;
      assert Crates(stacks) == b + l;
      assert a + multiset(stacks[i]) == b + multiset(x);
      assert (a + l) + multiset(stacks[i]) == (a + multiset(stacks[i])) + l;
      assert (b + l) + multiset(x) == (b + multiset(x)) + l;
    } else {
      assert stacks[i := x][..last] == stacks[..last];
    }
  }

  /** Taking crates off one stack and putting them on another keeps the
      bag of crates. */
  lemma MoveConserves(stacks: seq<Stack>, i: nat, j: nat, rest: Stack, moved: Stack)
    requires i < |stacks| && j < |stacks| && i != j
    requires multiset(stacks[i]) == multiset(rest) + multiset(moved)
    ensures Crates(stacks[i := rest][j := stacks[j] + moved]) == Crates(stacks)
  {
    var once := stacks[i := rest];
    var twice := once[j := stacks[j] + moved];
    CratesUpdate(stacks, i, rest);
    CratesUpdate(once, j, stacks[j] + moved);
    assert once[j] == stacks[j];
    var c, c1, c2 := Crates(stacks), Crates(once), Crates(twice);
    var si, sj, r, m := multiset(stacks[i]), multiset(stacks[j]), multiset(rest), multiset(moved);
    assert multiset(stacks[j] + moved) == sj + m;
    assert c1 + si == c + r;
    assert c2 + sj == c1 + (sj + m);
    assert si == r + m;
    assert c2 + sj + si == c1 + si + sj + m;
    assert c2 + sj + si == c + sj + si;
    forall e
      ensures c2[e] == c[e]
    {
      assert (c2 + sj + si)[e] == c2[e] + sj[e] + si[e];
      assert (c + sj + si)[e] == c[e] + sj[e] + si[e];
    }
  }

  /** A stack's crates are those left plus those taken. */
  lemma SplitConserves(src: Stack, k: nat, moved: Stack)
    requires k <= |src| && multiset(moved) == multiset(Top(src, k))
    ensures multiset(src) == multiset(Rest(src, k)) + multiset(moved)
  {
    assert src == Rest(src, k) + Top(src, k);
  }

  /** Between two different stacks, a completed in-order instruction keeps
      the bag of crates. */
  lemma InOrderConserves(b: Board, inst: Instruction)
    requires 1 <= inst.from <= |b.stacks| && 1 <= inst.to <= |b.stacks| && inst.from != inst.to
    requires InOrderOutcome(b.stacks, inst.num, inst.from, inst.to).1 == Done
    ensures Crates(InOrderOutcome(b.stacks, inst.num, inst.from, inst.to).0) == Crates(b.stacks)
  {
    var src := b.stacks[inst.from - 1];
    SplitConserves(src, inst.num, Top(src, inst.num));
    MoveConserves(b.stacks, inst.from - 1, inst.to - 1, Rest(src, inst.num), Top(src, inst.num));
  }

  /** Between two different stacks, a completed one-at-a-time instruction
      keeps the bag of crates. */
  lemma OneByOneConserves(b: Board, inst: Instruction)
    requires 1 <= inst.from <= |b.stacks| && 1 <= inst.to <= |b.stacks| && inst.from != inst.to
    requires OneByOneOutcome(b.stacks, inst.num, inst.from, inst.to).1 == Done
    ensures Crates(OneByOneOutcome(b.stacks, inst.num, inst.from, inst.to).0) == Crates(b.stacks)
  {
    var src := b.stacks[inst.from - 1];
    assert Moving(src, inst.num) == inst.num;
    ReversedKeepsCrates(Top(src, inst.num));
    SplitConserves(src, inst.num, Reversed(Top(src, inst.num)));
    MoveConserves(b.stacks, inst.from - 1, inst.to - 1, Rest(src, inst.num), Reversed(Top(src, inst.num)));
  }

  /** A completed instruction moves crates without making or losing any:
      the bag of crates on the board is the same before and after. */
  lemma ExecuteConserves(b: Board, inst: Instruction, inOrder: bool)
    requires Execute(b, inst, inOrder).1 == Done
    ensures Crates(Execute(b, inst, inOrder).0.stacks) == Crates(b.stacks)
  {
    if inst.from > |b.stacks| || inst.to > |b.stacks| {
    } else if inst.num == 0 {
      if inOrder {
        assert Execute(b, inst, inOrder).0 == b;
      }
    } else if inst.from == 0 {
    } else if inst.from == inst.to {
      if inOrder {
        TakeIntoBufferEffect(b.stacks, inst.num, inst.from, []);
      } else {
        MoveOneByOneInPlace(b.stacks, inst.num, inst.from);
      }
      ExecuteInPlace(b, inst, inOrder);
    } else if inst.to == 0 {
      if inOrder {
        TakeIntoBufferEffect(b.stacks, inst.num, inst.from, []);
      }
    } else if inOrder {
      ExecuteInOrder(b, inst);
      InOrderConserves(b, inst);
    } else {
      ExecuteOneByOne(b, inst);
      OneByOneConserves(b, inst);
    }
  }

  /** The one-at-a-time loop touches only the two stacks it names. */
  lemma {:induction false} MoveOneByOneFrame(stacks: seq<Stack>, num: nat, from: nat, to: nat)
    requires from <= |stacks| && to <= |stacks|
    ensures forall k :: 0 <= k < |stacks| && k + 1 != from && k + 1 != to ==>
              MoveOneByOne(stacks, num, from, to).0[k] == stacks[k]
    decreases num
  {
    if num > 0 && from > 0 && |stacks[from - 1]| > 0 && to > 0 {
      var src := stacks[from - 1];
      var popped := stacks[from - 1 := src[..|src| - 1]];
      MoveOneByOneFrame(popped[to - 1 := popped[to - 1] + [src[|src| - 1]]], num - 1, from, to);
    }
  }

  /** The first in-order loop touches only the source. */
  lemma {:induction false} TakeIntoBufferFrame(stacks: seq<Stack>, num: nat, from: nat, temp: seq<char>)
    requires from <= |stacks|
    ensures forall k :: 0 <= k < |stacks| && k + 1 != from ==>
              TakeIntoBuffer(stacks, num, from, temp).0[k] == stacks[k]
    decreases num
  {
    if num > 0 && from > 0 && |stacks[from - 1]| > 0 {
      var src := stacks[from - 1];
      TakeIntoBufferFrame(stacks[from - 1 := src[..|src| - 1]], num - 1, from, temp + [src[|src| - 1]]);
    }
  }

  /** The second in-order loop touches only the destination. */
  lemma {:induction false} DrainBufferFrame(stacks: seq<Stack>, to: nat, temp: seq<char>, count: nat)
    requires to <= |stacks|
    ensures forall k :: 0 <= k < |stacks| && k + 1 != to ==> DrainBuffer(stacks, to, temp, count).0[k] == stacks[k]
    decreases count
  {
    if count > 0 && to > 0 && |temp| > 0 {
      DrainBufferFrame(stacks[to - 1 := stacks[to - 1] + [temp[|temp| - 1]]], to, temp[..|temp| - 1], count - 1);
    }
  }

  /** Whatever the outcome, an instruction leaves every stack other than
      its source and destination as it was, and never changes how many
      stacks there are. */
  lemma ExecuteFrame(b: Board, inst: Instruction, inOrder: bool)
    ensures |Execute(b, inst, inOrder).0.stacks| == |b.stacks|
    ensures forall k :: 0 <= k < |b.stacks| && k + 1 != inst.from && k + 1 != inst.to ==>
              Execute(b, inst, inOrder).0.stacks[k] == b.stacks[k]
  {
    if inst.from <= |b.stacks| && inst.to <= |b.stacks| {
      if inOrder {
        TakeIntoBufferFrame(b.stacks, inst.num, inst.from, []);
        var (taken, temp, status) := TakeIntoBuffer(b.stacks, inst.num, inst.from, []);
        DrainBufferFrame(taken, inst.to, temp, |temp|);
      } else {
        MoveOneByOneFrame(b.stacks, inst.num, inst.from, inst.to);
      }
    }
  }

  // ---------------------------------------------------------------------
  // Reading an instruction
  // ---------------------------------------------------------------------

  /** The length of the run of ASCII digits starting at `i`. */
  function DigitRun(s: string, i: nat): (n: nat)
    requires i <= |s|
    ensures i + n <= |s|
    decreases |s| - i
  {
    if i < |s| && IsDigit(s[i]) then 1 + DigitRun(s, i + 1) else 0
  }

  /** The run found is all digits and stops at a non-digit or at the end
      of the text. */
  lemma {:induction false} DigitRunSpan(s: string, i: nat)
    requires i <= |s|
    ensures var n := DigitRun(s, i);
            (forall j :: i <= j < i + n ==> IsDigit(s[j])) && (i + n == |s| || !IsDigit(s[i + n]))
    decreases |s| - i
  {
    if i < |s| && IsDigit(s[i]) {
      DigitRunSpan(s, i + 1);
    }
  }

  /** A run of digits that ends where a non-digit (or the text) begins is
      the whole run. */
  lemma DigitRunIs(s: string, i: nat, n: nat)
    requires i + n <= |s|
    requires forall j :: i <= j < i + n ==> IsDigit(s[j])
    requires i + n == |s| || !IsDigit(s[i + n])
    ensures DigitRun(s, i) == n
    decreases n
  {
    if n > 0 {
      DigitRunIs(s, i + 1, n - 1);
    }
  }

  /** The regular expression `move (\d+) from (\d+) to (\d+)` matched at
      position `i`: the three digit runs it captures. The first two runs are
      followed by a space, so they must be whole runs; the last is whole
      because `+` is greedy. */
  function MatchAt(s: string, i: nat): Option<(string, string, string)>
    requires i <= |s|
  {
    if !OccursAt(s, "move ", i) then None
    else
      var first := Capture(s, i + 5, " from ");
      if first.None? then None
      else
        var second := Capture(s, first.value.1, " to ");
        if second.None? then None
        else
          var third := LastCapture(s, second.value.1);
          if third.None? then None else Some((first.value.0, second.value.0, third.value))
  }

  /** The last capture group `(\d+)` at `e`, which takes the whole run of
      digits there. */
  function LastCapture(s: string, e: nat): Option<string>
    requires e <= |s|
  {
    var n := DigitRun(s, e);
    if n == 0 then None else Some(s[e..e + n])
  }

  /** A capture group `(\d+)` at `a` followed by the literal `w`: the
      digits captured and the position after `w`. */
  function Capture(s: string, a: nat, w: string): (r: Option<(string, nat)>)
    requires a <= |s|
    ensures r.Some? ==> r.value.1 <= |s|
  {
    var n := DigitRun(s, a);
    if n == 0 || !OccursAt(s, w, a + n) then None else Some((s[a..a + n], a + n + |w|))
  }

  /** A match starts with "move " and captures three non-empty runs of
      digits. */
  lemma MatchAtShape(s: string, i: nat)
    requires i <= |s|
    ensures var r := MatchAt(s, i);
            r.Some? ==> OccursAt(s, "move ", i) &&
                        |r.value.0| > 0 && AllDigits(r.value.0) &&
                        |r.value.1| > 0 && AllDigits(r.value.1) &&
                        |r.value.2| > 0 && AllDigits(r.value.2)
  {
    if MatchAt(s, i).Some? {
      CaptureShape(s, i + 5, " from ");
      var c := Capture(s, i + 5, " from ").value.1;
      CaptureShape(s, c, " to ");
      LastCaptureShape(s, Capture(s, c, " to ").value.1);
    }
  }

  lemma CaptureShape(s: string, a: nat, w: string)
    requires a <= |s|
    ensures var r := Capture(s, a, w);
            r.Some? ==> |r.value.0| > 0 && AllDigits(r.value.0)
  {
    DigitRunSpan(s, a);
    DigitsOf(s, a, a + DigitRun(s, a));
  }

  lemma LastCaptureShape(s: string, e: nat)
    requires e <= |s|
    ensures var r := LastCapture(s, e);
            r.Some? ==> |r.value| > 0 && AllDigits(r.value)
  {
    DigitRunSpan(s, e);
    DigitsOf(s, e, e + DigitRun(s, e));
  }

  /** A stretch of digits, cut out. */
  lemma DigitsOf(s: string, lo: nat, hi: nat)
    requires lo <= hi <= |s| && forall j :: lo <= j < hi ==> IsDigit(s[j])
    ensures AllDigits(s[lo..hi])
  {
  }

  /** The leftmost match at or after `i`, as `captures_iter(s).next()`
      finds it. */
  function FirstMatch(s: string, i: nat): Option<(string, string, string)>
    requires i <= |s|
    decreases |s| - i
  {
    if MatchAt(s, i).Some? then MatchAt(s, i)
    else if i == |s| then None
    else FirstMatch(s, i + 1)
  }

  /** The match found is the one at the least position that has one; no
      match is found only when no position has one. */
  lemma FirstMatchIsLeftmost(s: string, i: nat)
    requires i <= |s|
    ensures FirstMatch(s, i).Some? ==>
              exists p :: i <= p <= |s| && MatchAt(s, p) == FirstMatch(s, i)
                          && forall q :: i <= q < p ==> MatchAt(s, q).None?
    ensures FirstMatch(s, i).None? <==> forall p :: i <= p <= |s| ==> MatchAt(s, p).None?
  {
    FirstMatchFound(s, i);
    FirstMatchMissing(s, i);
  }

  lemma {:induction false} FirstMatchFound(s: string, i: nat)
    requires i <= |s|
    ensures FirstMatch(s, i).Some? ==>
              exists p :: i <= p <= |s| && MatchAt(s, p) == FirstMatch(s, i)
                          && forall q :: i <= q < p ==> MatchAt(s, q).None?
    decreases |s| - i
  {
    if MatchAt(s, i).None? && i < |s| {
      FirstMatchFound(s, i + 1);
      if FirstMatch(s, i).Some? {
        var p :| i + 1 <= p <= |s| && MatchAt(s, p) == FirstMatch(s, i + 1)
                 && forall q :: i + 1 <= q < p ==> MatchAt(s, q).None?;
        assert forall q :: i <= q < p ==> MatchAt(s, q).None?;
      }
    }
  }

  lemma {:induction false} FirstMatchMissing(s: string, i: nat)
    requires i <= |s|
    ensures FirstMatch(s, i).None? <==> forall p :: i <= p <= |s| ==> MatchAt(s, p).None?
    decreases |s| - i
  {
    if MatchAt(s, i).None? && i < |s| {
      FirstMatchMissing(s, i + 1);
      assert FirstMatch(s, i) == FirstMatch(s, i + 1);
    }
  }

  /** `Instruction::from_str`: the leftmost match's three numbers; no match
      is "No matches" and a number beyond `u32` is "Not a num". */
  function ParseInstruction(s: string): (r: Result<Instruction>)
    ensures r.Err? ==> r.reason == "No matches" || r.reason == "Not a num"
    ensures r.Ok? ==> r.value.num <= U32Max && r.value.from <= U32Max && r.value.to <= U32Max
  {
    match FirstMatch(s, 0)
    case None => Err("No matches")
    case Some((x, y, z)) =>
      match (ParseU32(x), ParseU32(y), ParseU32(z))
      case (Some(num), Some(from), Some(to)) => Ok(Instruction(num, from, to))
      case _ => Err("Not a num")
  }

  /** How an instruction is written in the puzzle input. */
  function FormatInstruction(inst: Instruction): string
  {
    "move " + Decimal(inst.num) + " from " + Decimal(inst.from) + " to " + Decimal(inst.to)
  }

  /** A run of digits written at `i` and followed by a non-digit (or the
      end of the text) is read back whole. */
  lemma DigitRunOf(s: string, i: nat, digits: string)
    requires i + |digits| <= |s| && s[i..i + |digits|] == digits && AllDigits(digits)
    requires i + |digits| == |s| || !IsDigit(s[i + |digits|])
    ensures DigitRun(s, i) == |digits|
  {
    forall j | i <= j < i + |digits|
      ensures IsDigit(s[j])
    {
      assert s[j] == s[i..i + |digits|][j - i];
    }
    DigitRunIs(s, i, |digits|);
  }

  /** Where `move d1 from d2 to d3` is written from position `i` to the
      end, the keywords and digit runs sit at their places. */
  lemma WrittenPieces(s: string, i: nat, d1: string, d2: string, d3: string)
    requires i <= |s| && s[i..] == "move " + d1 + " from " + d2 + " to " + d3
    ensures |s| == i + 5 + |d1| + 6 + |d2| + 4 + |d3|
    ensures OccursAt(s, "move ", i)
    ensures s[i + 5..i + 5 + |d1|] == d1
    ensures OccursAt(s, " from ", i + 5 + |d1|)
    ensures s[i + 5 + |d1| + 6..i + 5 + |d1| + 6 + |d2|] == d2
    ensures OccursAt(s, " to ", i + 5 + |d1| + 6 + |d2|)
    ensures s[i + 5 + |d1| + 6 + |d2| + 4..] == d3
  {
    var w := s[i..];
    assert w[..5] == "move ";
    assert w[5..5 + |d1|] == d1;
    assert w[5 + |d1|..5 + |d1| + 6] == " from ";
    assert w[5 + |d1| + 6..5 + |d1| + 6 + |d2|] == d2;
    assert w[5 + |d1| + 6 + |d2|..5 + |d1| + 6 + |d2| + 4] == " to ";
    assert w[5 + |d1| + 6 + |d2| + 4..] == d3;
  }

  /** `move d1 from d2 to d3`, written from position `i` to the end,
      matches at `i` and captures the three digit runs. */
  lemma MatchWritten(s: string, i: nat, d1: string, d2: string, d3: string)
    requires |d1| > 0 && |d2| > 0 && |d3| > 0
    requires AllDigits(d1) && AllDigits(d2) && AllDigits(d3)
    requires i <= |s| && s[i..] == "move " + d1 + " from " + d2 + " to " + d3
    ensures MatchAt(s, i) == Some((d1, d2, d3))
  {
    WrittenPieces(s, i, d1, d2, d3);
    MatchPieces(s, i, d1, d2, d3);
  }

  /** The keywords and whole digit runs at their places make a match. */
  lemma MatchPieces(s: string, i: nat, d1: string, d2: string, d3: string)
    requires |d1| > 0 && |d2| > 0 && |d3| > 0
    requires AllDigits(d1) && AllDigits(d2) && AllDigits(d3)
    requires |s| == i + 5 + |d1| + 6 + |d2| + 4 + |d3|
    requires OccursAt(s, "move ", i)
    requires s[i + 5..i + 5 + |d1|] == d1
    requires OccursAt(s, " from ", i + 5 + |d1|)
    requires s[i + 5 + |d1| + 6..i + 5 + |d1| + 6 + |d2|] == d2
    requires OccursAt(s, " to ", i + 5 + |d1| + 6 + |d2|)
    requires s[i + 5 + |d1| + 6 + |d2| + 4..] == d3
    ensures MatchAt(s, i) == Some((d1, d2, d3))
  {
    var a := i + 5;
    var c := a + |d1| + 6;
    var e := c + |d2| + 4;
    CaptureOf(s, a, d1, " from ");
    CaptureOf(s, c, d2, " to ");
    LastCaptureOf(s, e, d3);
    MatchOfCaptures(s, i, d1, c, d2, e, d3);
  }

  /** Digits that run to the end of the text are the last capture. */
  lemma LastCaptureOf(s: string, e: nat, d: string)
    requires |d| > 0 && AllDigits(d) && e + |d| == |s| && s[e..] == d
    ensures LastCapture(s, e) == Some(d)
  {
    assert s[e..e + |d|] == d;
    DigitRunOf(s, e, d);
  }

  /** The two captures before the keywords and the digit run after them
      make the match. */
  lemma MatchOfCaptures(s: string, i: nat, d1: string, c: nat, d2: string, e: nat, d3: string)
    requires i + 5 <= |s| && OccursAt(s, "move ", i)
    requires Capture(s, i + 5, " from ") == Some((d1, c))
    requires Capture(s, c, " to ") == Some((d2, e))
    requires e <= |s| && LastCapture(s, e) == Some(d3)
    ensures MatchAt(s, i) == Some((d1, d2, d3))
  {
  }

  /** A whole run of digits before the word `w` is captured. */
  lemma CaptureOf(s: string, a: nat, d: string, w: string)
    requires |d| > 0 && AllDigits(d) && |w| > 0 && w[0] == ' '
    requires a + |d| <= |s| && s[a..a + |d|] == d && OccursAt(s, w, a + |d|)
    ensures Capture(s, a, w) == Some((d, a + |d| + |w|))
  {
    RunBeforeWord(s, a, d, w);
  }

  /** A run of digits followed by a word that starts with a space is a
      whole run. */
  lemma RunBeforeWord(s: string, p: nat, d: string, w: string)
    requires |w| > 0 && w[0] == ' ' && AllDigits(d)
    requires p + |d| <= |s| && s[p..p + |d|] == d && OccursAt(s, w, p + |d|)
    ensures DigitRun(s, p) == |d|
  {
    assert s[p + |d|] == s[p + |d|..p + |d| + |w|][0];
    DigitRunOf(s, p, d);
  }

  /** The written form of an instruction matches wherever it is placed at
      the end of a line, capturing the three printed numbers. */
  lemma MatchFormat(s: string, i: nat, inst: Instruction)
    requires i <= |s| && s[i..] == FormatInstruction(inst)
    ensures MatchAt(s, i) == Some((Decimal(inst.num), Decimal(inst.from), Decimal(inst.to)))
  {
    DecimalDigits(inst.num);
    DecimalDigits(inst.from);
    DecimalDigits(inst.to);
    MatchWritten(s, i, Decimal(inst.num), Decimal(inst.from), Decimal(inst.to));
  }

  /** With no match before position `k`, the leftmost match is the first
      one from `k` on. */
  lemma {:induction false} FirstMatchFrom(s: string, i: nat, k: nat)
    requires i <= k <= |s|
    requires forall p :: i <= p < k ==> MatchAt(s, p).None?
    ensures FirstMatch(s, i) == FirstMatch(s, k)
    decreases k - i
  {
    if i < k {
      FirstMatchFrom(s, i + 1, k);
    }
  }

  /** Every instruction of `u32` numbers survives writing and reading. */
  lemma ParseFormatInstruction(inst: Instruction)
    requires inst.num <= U32Max && inst.from <= U32Max && inst.to <= U32Max
    ensures ParseInstruction(FormatInstruction(inst)) == Ok(inst)
  {
    var t := FormatInstruction(inst);
    assert t[0..] == t;
    MatchFormat(t, 0, inst);
    ParseDecimal(inst.num);
    ParseDecimal(inst.from);
    ParseDecimal(inst.to);
  }

  /** A written instruction with a number beyond `u32` is "Not a num". */
  lemma ParseFormatOverflow(inst: Instruction)
    requires inst.num > U32Max || inst.from > U32Max || inst.to > U32Max
    ensures ParseInstruction(FormatInstruction(inst)) == Err("Not a num")
  {
    var t := FormatInstruction(inst);
    assert t[0..] == t;
    MatchFormat(t, 0, inst);
    ParseDecimal(inst.num);
    ParseDecimal(inst.from);
    ParseDecimal(inst.to);
  }

  /** The match need not start the line: text before it without an 'm'
      is skipped. */
  lemma ParseSkipsPrefix(prefix: string, inst: Instruction)
    requires 'm' !in prefix
    ensures ParseInstruction(prefix + FormatInstruction(inst)) == ParseInstruction(FormatInstruction(inst))
  {
    var t := FormatInstruction(inst);
    var s := prefix + t;
    forall p | 0 <= p < |prefix|
      ensures MatchAt(s, p).None?
    {
      assert s[p] == prefix[p];
      if p + 5 <= |s| {
        assert s[p..p + 5][0] == s[p];
      }
    }
    FirstMatchFrom(s, 0, |prefix|);
    assert s[|prefix|..] == t;
    MatchFormat(s, |prefix|, inst);
    assert t[0..] == t;
    MatchFormat(t, 0, inst);
  }

  // ---------------------------------------------------------------------
  // Reading the drawing
  // ---------------------------------------------------------------------

  /** The column of row characters where stack `k` is drawn: `[X] ` takes
      four characters and the crate letter is the second. */
  function Column(k: nat): nat
  {
    4 * k + 1
  }

  /** A row is wide enough for `num` stacks when it reaches the column of
      the last one. */
  predicate Wide(row: string, num: nat)
  {
    num == 0 || Column(num - 1) < |row|
  }

  /** What row `row` puts on stack `k`: its letter, or nothing where the
      drawing is blank. */
  function Cell(row: string, k: nat): Stack
    requires Column(k) < |row|
  {
    if IsWhitespace(row[Column(k)]) then [] else [row[Column(k)]]
  }

  /** The inner loop of `Board::from_str` from stack `k` on: each stack
      takes the row's letter at its column; a row that ends before a column
      is "Not enough chars". */
  function FillRow(stacks: seq<Stack>, row: string, k: nat): (r: Result<seq<Stack>>)
    requires k <= |stacks|
    ensures r.Ok? ==> |r.value| == |stacks|
    decreases |stacks| - k
  {
    if k == |stacks| then Ok(stacks)
    else if Column(k) >= |row| then Err("Not enough chars")
    else FillRow(stacks[k := stacks[k] + Cell(row, k)], row, k + 1)
  }

  /** The outer loop: the rows from the bottom one up. */
  function FillRows(stacks: seq<Stack>, rows: seq<string>): (r: Result<seq<Stack>>)
    ensures r.Ok? ==> |r.value| == |stacks|
    decreases |rows|
  {
    if |rows| == 0 then Ok(stacks)
    else match FillRow(stacks, rows[|rows| - 1], 0)
      case Err(e) => Err(e)
      case Ok(next) => FillRows(next, rows[..|rows| - 1])
  }

  /** `Board::from_str`: the stack count is the last word of the last line
      (the line of stack numbers); the lines above it are the rows. */
  function ParseBoard(s: string): (r: Result<Board>)
    ensures r.Ok? ==> |r.value.stacks| == r.value.num
    ensures r.Err? ==> r.reason in ["Not enough lines", "Not enough characters", "Not a number", "Not enough chars"]
  {
    var lines := Lines(s);
    if |lines| == 0 then Err("Not enough lines")
    else match StackCount(lines[|lines| - 1])
      case Err(e) => Err(e)
      case Ok(num) =>
        BuildBoardReads(num, lines[..|lines| - 1]);
        BuildBoard(num, lines[..|lines| - 1])
  }

  /** The stack count: the last word of the number row, as a `u32`. */
  function StackCount(numbers: string): (r: Result<nat>)
    ensures r.Ok? <==> |Tokens(numbers)| > 0 && ParseU32(Tokens(numbers)[|Tokens(numbers)| - 1]).Some?
    ensures r.Ok? ==> Some(r.value) == ParseU32(Tokens(numbers)[|Tokens(numbers)| - 1])
  {
    var words := Tokens(numbers);
    if |words| == 0 then Err("Not enough characters")
    else match ParseU32(words[|words| - 1])
      case None => Err("Not a number")
      case Some(num) => Ok(num)
  }

  /** `num` new stacks filled from the rows. */
  function BuildBoard(num: nat, rows: seq<string>): (r: Result<Board>)
    ensures r.Ok? ==> r.value.num == num && |r.value.stacks| == num
  {
    match FillRows(NewBoard(num).stacks, rows)
    case Err(e) => Err(e)
    case Ok(stacks) => Ok(Board(num, stacks))
  }

  /** Reference reading of one stack from the drawing: the letters of its
      column, from the bottom row up. */
  function StackOf(rows: seq<string>, k: nat): Stack
    requires forall i :: 0 <= i < |rows| ==> Column(k) < |rows[i]|
    decreases |rows|
  {
    if |rows| == 0 then [] else Cell(rows[|rows| - 1], k) + StackOf(rows[..|rows| - 1], k)
  }

  /** One row's pass fails exactly when the row is too short for the
      stacks it has still to visit, and otherwise adds the row's letter to
      each of those stacks. */
  lemma {:induction false} FillRowEffect(stacks: seq<Stack>, row: string, k: nat)
    requires k <= |stacks|
    ensures FillRow(stacks, row, k).Err? <==> k < |stacks| && !Wide(row, |stacks|)
    ensures FillRow(stacks, row, k).Err? ==> FillRow(stacks, row, k).reason == "Not enough chars"
    ensures FillRow(stacks, row, k).Ok? ==>
              var r := FillRow(stacks, row, k).value;
              |r| == |stacks| &&
              forall j :: 0 <= j < |stacks| ==> r[j] == if j < k then stacks[j] else stacks[j] + Cell(row, j)
    decreases |stacks| - k
  {
    if k < |stacks| && Column(k) < |row| {
      FillRowEffect(stacks[k := stacks[k] + Cell(row, k)], row, k + 1);
    }
  }

  /** Filling row by row reads each stack down its column: the fill fails
      exactly when some row is too short, and otherwise stack `k` gains the
      letters of column `k` from the bottom row up. */
  lemma FillRowsEffect(stacks: seq<Stack>, rows: seq<string>)
    ensures FillRows(stacks, rows).Err? <==>
              exists i :: 0 <= i < |rows| && !Wide(rows[i], |stacks|)
    ensures FillRows(stacks, rows).Err? ==> FillRows(stacks, rows).reason == "Not enough chars"
    ensures FillRows(stacks, rows).Ok? ==>
              var r := FillRows(stacks, rows).value;
              |r| == |stacks| &&
              forall k :: 0 <= k < |stacks| ==> r[k] == stacks[k] + StackOf(rows, k)
  {
    FillRowsFails(stacks, rows);
    if forall i :: 0 <= i < |rows| ==> Wide(rows[i], |stacks|) {
      FillRowsContents(stacks, rows);
    }
  }

  lemma {:induction false} FillRowsFails(stacks: seq<Stack>, rows: seq<string>)
    ensures FillRows(stacks, rows).Err? <==>
              exists i :: 0 <= i < |rows| && !Wide(rows[i], |stacks|)
    ensures FillRows(stacks, rows).Err? ==> FillRows(stacks, rows).reason == "Not enough chars"
    decreases |rows|
  {
    if |rows| > 0 {
      var last := rows[|rows| - 1];
      var above := rows[..|rows| - 1];
      FillRowEffect(stacks, last, 0);
      if Wide(last, |stacks|) || |stacks| == 0 {
        var next := FillRow(stacks, last, 0).value;
        FillRowsFails(next, above);
        if FillRows(stacks, rows).Err? {
          var i :| 0 <= i < |above| && !Wide(above[i], |stacks|);
          assert rows[i] == above[i];
        } else {
          forall i | 0 <= i < |rows|
            ensures Wide(rows[i], |stacks|)
          {
            if i < |above| {
              assert rows[i] == above[i];
            }
          }
        }
      } else {
        assert !Wide(rows[|rows| - 1], |stacks|);
      }
    }
  }

  lemma FillRowsContents(stacks: seq<Stack>, rows: seq<string>)
    requires forall i :: 0 <= i < |rows| ==> Wide(rows[i], |stacks|)
    ensures forall k, i :: 0 <= k < |stacks| && 0 <= i < |rows| ==> Column(k) < |rows[i]|
    ensures FillRows(stacks, rows).Ok?
    ensures var r := FillRows(stacks, rows).value;
              |r| == |stacks| &&
              forall k :: 0 <= k < |stacks| ==> r[k] == stacks[k] + StackOf(rows, k)
  {
    ColumnsFit(|stacks|, rows);
    FillRowsFails(stacks, rows);
    forall k | 0 <= k < |stacks|
      ensures FillRows(stacks, rows).value[k] == stacks[k] + StackOf(rows, k)
    {
      FillRowsColumn(stacks, rows, k);
    }
  }

  /** One column at a time: a successful fill puts column `k` of the rows,
      from the bottom one up, on top of stack `k`. */
  lemma {:induction false} FillRowsColumn(stacks: seq<Stack>, rows: seq<string>, k: nat)
    requires k < |stacks| && FillRows(stacks, rows).Ok?
    requires forall i :: 0 <= i < |rows| ==> Column(k) < |rows[i]|
    ensures FillRows(stacks, rows).value[k] == stacks[k] + StackOf(rows, k)
    decreases |rows|
  {
    if |rows| > 0 {
      var last := rows[|rows| - 1];
      var above := rows[..|rows| - 1];
      FillRowEffect(stacks, last, 0);
      var next := FillRow(stacks, last, 0).value;
      assert next[k] == stacks[k] + Cell(last, k);
      assert FillRows(stacks, rows) == FillRows(next, above);
      assert forall i :: 0 <= i < |above| ==> above[i] == rows[i];
      FillRowsColumn(next, above, k);
      assert StackOf(rows, k) == Cell(last, k) + StackOf(above, k);
    }
  }

  /** Rows wide enough for `num` stacks reach every stack's column. */
  lemma ColumnsFit(num: nat, rows: seq<string>)
    requires forall i :: 0 <= i < |rows| ==> Wide(rows[i], num)
    ensures forall k, i :: 0 <= k < num && 0 <= i < |rows| ==> Column(k) < |rows[i]|
  {
    forall k, i | 0 <= k < num && 0 <= i < |rows|
      ensures Column(k) < |rows[i]|
    {
      assert Wide(rows[i], num);
    }
  }

  /** Building a board of `num` stacks succeeds exactly when every row is
      wide enough, and stack `k` then holds column `k` from the bottom row
      up. */
  lemma BuildBoardReads(num: nat, rows: seq<string>)
    ensures BuildBoard(num, rows).Ok? <==> forall i :: 0 <= i < |rows| ==> Wide(rows[i], num)
    ensures BuildBoard(num, rows).Err? ==> BuildBoard(num, rows).reason == "Not enough chars"
    ensures BuildBoard(num, rows).Ok? ==>
              var b := BuildBoard(num, rows).value;
              b.num == num && |b.stacks| == num &&
              forall k :: 0 <= k < num ==> b.stacks[k] == StackOf(rows, k)
  {
    FillRowsEffect(NewBoard(num).stacks, rows);
    if FillRows(NewBoard(num).stacks, rows).Ok? {
      var st := FillRows(NewBoard(num).stacks, rows).value;
      forall k | 0 <= k < num
        ensures st[k] == StackOf(rows, k)
      {
        assert st[k] == [] + StackOf(rows, k);
      }
    }
  }

  /** A drawing is read as a board exactly when it has a last line whose
      last word is a `u32` stack count and every line above is wide enough
      for that many stacks; stack `k` is then the letters of column `k`
      from the bottom row up. */
  lemma ParseBoardReads(s: string)
    ensures var lines := Lines(s);
            ParseBoard(s).Ok? <==>
              |lines| > 0 && StackCount(lines[|lines| - 1]).Ok? &&
              forall i :: 0 <= i < |lines| - 1 ==> Wide(lines[i], StackCount(lines[|lines| - 1]).value)
    ensures ParseBoard(s).Ok? ==>
              var lines := Lines(s);
              var rows := lines[..|lines| - 1];
              var b := ParseBoard(s).value;
              StackCount(lines[|lines| - 1]) == Ok(b.num) && |b.stacks| == b.num &&
              (forall i :: 0 <= i < |rows| ==> Wide(rows[i], b.num)) &&
              forall k :: 0 <= k < b.num ==> b.stacks[k] == StackOf(rows, k)
  {
    var lines := Lines(s);
    if |lines| > 0 && StackCount(lines[|lines| - 1]).Ok? {
      var num := StackCount(lines[|lines| - 1]).value;
      var rows := lines[..|lines| - 1];
      BuildBoardReads(num, rows);
      assert ParseBoard(s) == BuildBoard(num, rows);
      assert forall i :: 0 <= i < |lines| - 1 ==> rows[i] == lines[i];
    }
  }

  // ---------------------------------------------------------------------
  // The whole input and the answers
  // ---------------------------------------------------------------------

  /** The instruction lines, keeping those that parse and dropping the
      rest, as `filter_map(|line| line.parse().ok())` does. */
  function ReadInstructions(lines: seq<string>): (r: seq<Instruction>)
    ensures |r| <= |lines|
  {
    if |lines| == 0 then [] else ReadLine(lines[0]) + ReadInstructions(lines[1..])
  }

  /** One line's contribution: its instruction, or nothing. */
  function ReadLine(line: string): (r: seq<Instruction>)
    ensures |r| <= 1
  {
    match ParseInstruction(line) case Ok(inst) => [inst] case Err(_) => []
  }

  /** `parse_input`: the text up to the first blank line is the drawing,
      and the lines of the text after it are the instructions. The text
      after a second blank line is ignored. */
  function ParseInput(input: string): (r: Result<(Board, seq<Instruction>)>)
    ensures r.Ok? ==> |r.value.0.stacks| == r.value.0.num
    ensures r.Ok? ==> |Split(input, "\n\n")| >= 2
    ensures r.Err? ==> r.reason == "Not a board" || r.reason == "No instructions"
  {
    var pieces := Split(input, "\n\n");
    match ParseBoard(pieces[0])
    case Err(_) => Err("Not a board")
    case Ok(b) =>
      if |pieces| < 2 then Err("No instructions")
      else Ok((b, ReadInstructions(Lines(pieces[1]))))
  }

  /** The loop of `part1` and `part2`: execute every instruction in turn;
      any failure panics at `expect("Succeeded")`, which is `None`. */
  function RunAll(b: Board, insts: seq<Instruction>, inOrder: bool): (r: Option<Board>)
    ensures r.Some? ==> r.value.num == b.num && |r.value.stacks| == |b.stacks|
    decreases |insts|
  {
    if |insts| == 0 then Some(b)
    else
      var (next, status) := Execute(b, insts[0], inOrder);
      if status == Done then RunAll(next, insts[1..], inOrder) else None
  }

  /** What one stack shows from above: its top crate, or nothing. */
  function TopLetter(s: Stack): string
  {
    if |s| == 0 then "" else [s[|s| - 1]]
  }

  /** The answer: the top crates of the stacks in order, an empty stack
      contributing nothing. */
  function Report(stacks: seq<Stack>): (r: string)
    ensures |r| <= |stacks|
    ensures (forall k :: 0 <= k < |stacks| ==> |stacks[k]| > 0) ==> |r| == |stacks|
  {
    if |stacks| == 0 then "" else Report(stacks[..|stacks| - 1]) + TopLetter(stacks[|stacks| - 1])
  }

  /** `part1` (one at a time) and `part2` (in order) share everything but
      the policy; `None` is a panic at one of their `expect`s. */
  function Solve(input: string, inOrder: bool): (r: Option<string>)
    ensures r.Some? ==> ParseInput(input).Ok? && |r.value| <= ParseInput(input).value.0.num
  {
    match ParseInput(input)
    case Err(_) => None
    case Ok((b, insts)) =>
      match RunAll(b, insts, inOrder)
      case None => None
      case Some(end) => Some(Report(end.stacks))
  }

  /** `part1`: its letters are crates the drawing shows. */
  function PartOne(input: string): (r: Option<string>)
    ensures r.Some? ==> ParseInput(input).Ok? && multiset(r.value) <= Crates(ParseInput(input).value.0.stacks)
  {
    if Solve(input, false).Some? then SolveSpellsDrawnCrates(input, false); Solve(input, false)
    else None
  }

  /** `part2`: its letters are crates the drawing shows. */
  function PartTwo(input: string): (r: Option<string>)
    ensures r.Some? ==> ParseInput(input).Ok? && multiset(r.value) <= Crates(ParseInput(input).value.0.stacks)
  {
    if Solve(input, true).Some? then SolveSpellsDrawnCrates(input, true); Solve(input, true)
    else None
  }

  /** Lines that each parse are read as their instructions, in order. */
  lemma {:induction false} ReadParsed(lines: seq<string>, insts: seq<Instruction>)
    requires |lines| == |insts|
    requires forall i :: 0 <= i < |lines| ==> ParseInstruction(lines[i]) == Ok(insts[i])
    ensures ReadInstructions(lines) == insts
  {
    if |lines| > 0 {
      ParsedTail(lines, insts);
      ReadParsed(lines[1..], insts[1..]);
      ReadLineOk(lines[0], insts[0]);
      assert insts == [insts[0]] + insts[1..];
    }
  }

  lemma ParsedTail(lines: seq<string>, insts: seq<Instruction>)
    requires 0 < |lines| == |insts|
    requires forall i :: 0 <= i < |lines| ==> ParseInstruction(lines[i]) == Ok(insts[i])
    ensures forall i :: 0 <= i < |lines| - 1 ==> ParseInstruction(lines[1..][i]) == Ok(insts[1..][i])
  {
    forall i | 0 <= i < |lines| - 1
      ensures ParseInstruction(lines[1..][i]) == Ok(insts[1..][i])
    {
      assert lines[1..][i] == lines[i + 1] && insts[1..][i] == insts[i + 1];
    }
  }

  lemma ReadLineOk(line: string, inst: Instruction)
    requires ParseInstruction(line) == Ok(inst)
    ensures ReadLine(line) == [inst]
  {
  }

  /** Written instructions are read back in order; a written instruction
      whose numbers do not fit in `u32` would be dropped. */
  lemma ReadWritten(insts: seq<Instruction>)
    requires forall i :: 0 <= i < |insts| ==>
               insts[i].num <= U32Max && insts[i].from <= U32Max && insts[i].to <= U32Max
    ensures ReadInstructions(seq(|insts|, i requires 0 <= i < |insts| => FormatInstruction(insts[i]))) == insts
  {
    var lines := seq(|insts|, i requires 0 <= i < |insts| => FormatInstruction(insts[i]));
    forall i | 0 <= i < |lines|
      ensures ParseInstruction(lines[i]) == Ok(insts[i])
    {
      ParseFormatInstruction(insts[i]);
    }
    ReadParsed(lines, insts);
  }

  /** The lines of an instruction list, as the puzzle writes them. */
  function FormatLines(insts: seq<Instruction>): (r: seq<string>)
    ensures |r| == |insts|
    ensures forall i :: 0 <= i < |insts| ==> r[i] == FormatInstruction(insts[i])
  {
    seq(|insts|, i requires 0 <= i < |insts| => FormatInstruction(insts[i]))
  }

  /** A written instruction is one non-empty line. */
  lemma FormatInstructionPlain(inst: Instruction)
    ensures |FormatInstruction(inst)| > 0 && '\n' !in FormatInstruction(inst)
  {
    DecimalDigits(inst.num);
    DecimalDigits(inst.from);
    DecimalDigits(inst.to);
    var s := FormatInstruction(inst);
    forall j | 0 <= j < |s|
      ensures s[j] != '\n'
    {
      var a, b, c := Decimal(inst.num), Decimal(inst.from), Decimal(inst.to);
      assert s == "move " + a + " from " + b + " to " + c;
      if 5 <= j < 5 + |a| {
        assert s[j] == a[j - 5];
      } else if 11 + |a| <= j < 11 + |a| + |b| {
        assert s[j] == b[j - 11 - |a|];
      } else if 15 + |a| + |b| <= j {
        assert s[j] == c[j - 15 - |a| - |b|];
      }
    }
  }

  /** `parse_input` inverts writing the puzzle input: a drawing (rows
      above a line of stack numbers), a blank line, and the written
      instructions read back as the board the drawing shows and those
      instructions. */
  lemma ParseInputReads(rows: seq<string>, numbers: string, num: nat, insts: seq<Instruction>)
    requires forall i :: 0 <= i < |rows| ==> |rows[i]| > 0 && '\n' !in rows[i] && Wide(rows[i], num)
    requires |numbers| > 0 && '\n' !in numbers && StackCount(numbers) == Ok(num)
    requires |insts| > 0
    requires forall i :: 0 <= i < |insts| ==>
               insts[i].num <= U32Max && insts[i].from <= U32Max && insts[i].to <= U32Max
    ensures BuildBoard(num, rows).Ok?
    ensures ParseInput(Join(rows + [numbers], "\n") + "\n\n" + Join(FormatLines(insts), "\n"))
            == Ok((BuildBoard(num, rows).value, insts))
  {
    var top := rows + [numbers];
    var moves := FormatLines(insts);
    DrawingRowsPlain(rows, numbers);
    MoveLines(insts);
    SplitAtBlankLine(top, moves);
    ParseDrawing(rows, numbers, num);
    ReadFormatted(insts);
  }

  /** The lines of a drawing are non-empty and free of line breaks. */
  lemma DrawingRowsPlain(rows: seq<string>, numbers: string)
    requires forall i :: 0 <= i < |rows| ==> |rows[i]| > 0 && '\n' !in rows[i]
    requires |numbers| > 0 && '\n' !in numbers
    ensures var top := rows + [numbers];
            forall i :: 0 <= i < |top| ==> |top[i]| > 0 && '\n' !in top[i]
  {
    var top := rows + [numbers];
    forall i | 0 <= i < |top|
      ensures |top[i]| > 0 && '\n' !in top[i]
    {
      if i < |rows| {
        assert top[i] == rows[i];
      }
    }
  }

  /** Written instructions are non-empty lines free of line breaks. */
  lemma MoveLines(insts: seq<Instruction>)
    ensures forall i :: 0 <= i < |insts| ==> |FormatLines(insts)[i]| > 0 && '\n' !in FormatLines(insts)[i]
  {
    forall i | 0 <= i < |insts|
      ensures |FormatLines(insts)[i]| > 0 && '\n' !in FormatLines(insts)[i]
    {
      FormatInstructionPlain(insts[i]);
    }
  }

  /** A drawing joined into text is read as the board its rows show. */
  lemma ParseDrawing(rows: seq<string>, numbers: string, num: nat)
    requires forall i :: 0 <= i < |rows| ==> |rows[i]| > 0 && '\n' !in rows[i] && Wide(rows[i], num)
    requires |numbers| > 0 && '\n' !in numbers && StackCount(numbers) == Ok(num)
    ensures BuildBoard(num, rows).Ok?
    ensures ParseBoard(Join(rows + [numbers], "\n")) == BuildBoard(num, rows)
  {
    var top := rows + [numbers];
    DrawingRowsPlain(rows, numbers);
    forall i, j | 0 <= i < |top| && 0 <= j < |top[i]|
      ensures top[i][j] != '\n'
    {
      assert top[i][j] in top[i];
    }
    LinesOfJoin(top);
    ParseBoardOf(Join(top, "\n"), rows, numbers, num);
    BuildBoardReads(num, rows);
  }

  /** Written instructions joined into text are read back in order. */
  lemma ReadFormatted(insts: seq<Instruction>)
    requires |insts| > 0
    requires forall i :: 0 <= i < |insts| ==>
               insts[i].num <= U32Max && insts[i].from <= U32Max && insts[i].to <= U32Max
    ensures ReadInstructions(Lines(Join(FormatLines(insts), "\n"))) == insts
  {
    var moves := FormatLines(insts);
    MoveLines(insts);
    forall i, j | 0 <= i < |moves| && 0 <= j < |moves[i]|
      ensures moves[i][j] != '\n'
    {
      assert moves[i][j] in moves[i];
    }
    LinesOfJoin(moves);
    ReadWritten(insts);
    assert seq(|insts|, i requires 0 <= i < |insts| => FormatInstruction(insts[i])) == moves;
  }

  /** Reading instruction lines works line by line: reading two blocks of
      lines is reading each; a line that is not an instruction adds
      nothing. */
  lemma {:induction false} ReadInstructionsAppend(a: seq<string>, b: seq<string>)
    ensures ReadInstructions(a + b) == ReadInstructions(a) + ReadInstructions(b)
  {
    if |a| == 0 {
      assert a + b == b;
    } else {
      assert (a + b)[1..] == a[1..] + b;
      assert (a + b)[0] == a[0];
      ReadInstructionsAppend(a[1..], b);
    }
  }

  lemma ReadDropsNonInstruction(line: string)
    requires ParseInstruction(line).Err?
    ensures ReadInstructions([line]) == []
  {
    assert [line][1..] == [];
  }

  /** A completed run moves crates around without making or losing any,
      and keeps the number of stacks. */
  lemma {:induction false} RunAllConserves(b: Board, insts: seq<Instruction>, inOrder: bool)
    requires RunAll(b, insts, inOrder).Some?
    ensures Crates(RunAll(b, insts, inOrder).value.stacks) == Crates(b.stacks)
    ensures |RunAll(b, insts, inOrder).value.stacks| == |b.stacks|
    decreases |insts|
  {
    if |insts| > 0 {
      ExecuteConserves(b, insts[0], inOrder);
      RunAllConserves(Execute(b, insts[0], inOrder).0, insts[1..], inOrder);
    }
  }

  /** Running two blocks of instructions is running the first, then the
      second from where it ended. */
  lemma {:induction false} RunAllAppend(b: Board, x: seq<Instruction>, y: seq<Instruction>, inOrder: bool)
    ensures RunAll(b, x + y, inOrder) ==
              match RunAll(b, x, inOrder) case None => None case Some(m) => RunAll(m, y, inOrder)
    decreases |x|
  {
    if |x| == 0 {
      assert x + y == y;
    } else {
      assert (x + y)[1..] == x[1..] + y;
      RunAllAppend(Execute(b, x[0], inOrder).0, x[1..], y, inOrder);
    }
  }

  /** With every stack holding a crate, the answer has one letter per
      stack: the top of stack `k` at position `k`. */
  lemma {:induction false} ReportOfFilled(stacks: seq<Stack>)
    requires forall k :: 0 <= k < |stacks| ==> |stacks[k]| > 0
    ensures |Report(stacks)| == |stacks|
    ensures forall k :: 0 <= k < |stacks| ==> Report(stacks)[k] == stacks[k][|stacks[k]| - 1]
  {
    if |stacks| > 0 {
      ReportOfFilled(stacks[..|stacks| - 1]);
    }
  }

  /** The answer spells crates that are on the board, each at most as
      often as it is there. */
  lemma {:induction false} ReportFromCrates(stacks: seq<Stack>)
    ensures multiset(Report(stacks)) <= Crates(stacks)
  {
    if |stacks| > 0 {
      var last := stacks[|stacks| - 1];
      ReportFromCrates(stacks[..|stacks| - 1]);
      if |last| > 0 {
        assert last == last[..|last| - 1] + [last[|last| - 1]];
        assert multiset(TopLetter(last)) <= multiset(last);
      }
    }
  }

  /** Whatever the instructions, an answer names only crates that were in
      the drawing, no crate more often than it was drawn. */
  lemma SolveSpellsDrawnCrates(input: string, inOrder: bool)
    requires Solve(input, inOrder).Some?
    ensures ParseInput(input).Ok?
    ensures multiset(Solve(input, inOrder).value) <= Crates(ParseInput(input).value.0.stacks)
  {
    var (b, insts) := ParseInput(input).value;
    RunAllConserves(b, insts, inOrder);
    ReportFromCrates(RunAll(b, insts, inOrder).value.stacks);
  }

  // ---------------------------------------------------------------------
  // The puzzle's example
  // ---------------------------------------------------------------------

  const Row1: string := "    [D]    "
  const Row2: string := "[N] [C]    "
  const Row3: string := "[Z] [M] [P]"
  const NumberRow: string := " 1   2   3 "

  const Drawing: seq<string> := [Row1, Row2, Row3, NumberRow]

  /** The stacks the drawing shows, bottom crate first. */
  const ExampleStacks: seq<Stack> := ["ZN", "MCD", "P"]

  /** The stack count is read off the number row. */
  lemma NumberRowCount()
    ensures StackCount(NumberRow) == Ok(3)
  {
    var x, w, t := " 1   2   ", "3", " ";
    assert |x| == 9 && x[8] == ' ';
    assert NoWhitespace(w) && AllWhitespace(t);
    SingleDigit(3);
    ParseDecimal(3);
    assert w == Decimal(3);
    StackCountOfLast(x, w, t, 3);
    assert x + w + t == NumberRow;
  }

  /** A number row whose last word is `w` counts `w` stacks. */
  lemma StackCountOfLast(x: string, w: string, t: string, n: nat)
    requires |x| == 0 || IsAsciiWhitespace(x[|x| - 1])
    requires |w| > 0 && NoWhitespace(w) && AllWhitespace(t)
    requires ParseU32(w) == Some(n)
    ensures StackCount(x + w + t) == Ok(n)
  {
    LastToken(x, w, t);
  }

  lemma DrawingLines()
    ensures Lines(Join(Drawing, "\n")) == Drawing
  {
    forall i, j | 0 <= i < |Drawing| && 0 <= j < |Drawing[i]|
      ensures Drawing[i][j] != '\n'
    {
    }
    LinesOfJoin(Drawing);
  }

  /** Each column of the three rows, read from the bottom up. */
  lemma ExampleColumns()
    ensures StackOf([Row1, Row2, Row3], 0) == "ZN"
    ensures StackOf([Row1, Row2, Row3], 1) == "MCD"
    ensures StackOf([Row1, Row2, Row3], 2) == "P"
  {
    var rows := [Row1, Row2, Row3];
    assert rows[..2] == [Row1, Row2];
    assert [Row1, Row2][..1] == [Row1];
    assert [Row1][..0] == [];
    assert Row3[1] == 'Z' && Row3[5] == 'M' && Row3[9] == 'P';
    assert Row2[1] == 'N' && Row2[5] == 'C' && Row2[9] == ' ';
    assert Row1[1] == ' ' && Row1[5] == 'D' && Row1[9] == ' ';
    assert Cell(Row3, 0) == "Z" && Cell(Row3, 1) == "M" && Cell(Row3, 2) == "P";
    assert Cell(Row2, 0) == "N" && Cell(Row2, 1) == "C" && Cell(Row2, 2) == "";
    assert Cell(Row1, 0) == "" && Cell(Row1, 1) == "D" && Cell(Row1, 2) == "";
    forall k | 0 <= k < 3
      ensures StackOf(rows, k) == Cell(Row3, k) + (Cell(Row2, k) + (Cell(Row1, k) + []))
    {
      assert StackOf([Row1], k) == Cell(Row1, k) + StackOf([], k);
      assert StackOf([Row1, Row2], k) == Cell(Row2, k) + StackOf([Row1], k);
    }
  }

  /** A drawing whose lines are some rows and then a number row ending in
      the stack count is built from those rows. */
  lemma ParseBoardOf(s: string, rows: seq<string>, numbers: string, num: nat)
    requires Lines(s) == rows + [numbers] && StackCount(numbers) == Ok(num)
    ensures ParseBoard(s) == BuildBoard(num, rows)
  {
    var lines := Lines(s);
    assert lines[..|lines| - 1] == rows;
    assert lines[|lines| - 1] == numbers;
  }

  lemma ExampleBuild()
    ensures BuildBoard(3, [Row1, Row2, Row3]) == Ok(Board(3, ExampleStacks))
  {
    var rows := [Row1, Row2, Row3];
    assert Wide(Row1, 3) && Wide(Row2, 3) && Wide(Row3, 3);
    BuildBoardReads(3, rows);
    ExampleColumns();
    var st := BuildBoard(3, rows).value.stacks;
    ThreeStacks(st, "ZN", "MCD", "P");
  }

  /** The drawing of the board test: three stacks, Z N / M C D / P. */
  lemma ExampleBoard()
    ensures ParseBoard(Join(Drawing, "\n")) == Ok(Board(3, ExampleStacks))
  {
    var s := Join(Drawing, "\n");
    DrawingLines();
    assert Lines(s) == [Row1, Row2, Row3] + [NumberRow];
    NumberRowCount();
    ParseBoardOf(s, [Row1, Row2, Row3], NumberRow, 3);
    ExampleBuild();
  }

  const Move1: string := "move 1 from 2 to 1"
  const Move2: string := "move 3 from 1 to 3"
  const Move3: string := "move 2 from 2 to 1"
  const Move4: string := "move 1 from 1 to 2"

  const Moves: seq<string> := [Move1, Move2, Move3, Move4]

  const ExampleInstructions: seq<Instruction> :=
    [Instruction(1, 2, 1), Instruction(3, 1, 3), Instruction(2, 2, 1), Instruction(1, 1, 2)]

  /** The instruction test: "move 1 from 2 to 1". */
  lemma ExampleInstruction()
    ensures ParseInstruction(Move1) == Ok(Instruction(1, 2, 1))
  {
    ReadDigits(Move1, Instruction(1, 2, 1));
  }

  lemma ExampleMoves()
    ensures ReadInstructions(Moves) == ExampleInstructions
  {
    var first, last := [Move1, Move2], [Move3, Move4];
    assert Moves == first + last;
    ExampleFirstMoves();
    ExampleLastMoves();
    ReadInstructionsAppend(first, last);
    assert ReadInstructions(Moves) == ReadInstructions(first) + ReadInstructions(last);
  }

  lemma ExampleFirstMoves()
    ensures ReadInstructions([Move1, Move2]) == [Instruction(1, 2, 1), Instruction(3, 1, 3)]
  {
    ExampleInstruction();
    ExampleInstructionTwo();
    ReadTwo(Move1, Move2, Instruction(1, 2, 1), Instruction(3, 1, 3));
  }

  lemma ExampleLastMoves()
    ensures ReadInstructions([Move3, Move4]) == [Instruction(2, 2, 1), Instruction(1, 1, 2)]
  {
    ExampleInstructionThree();
    ExampleInstructionFour();
    ReadTwo(Move3, Move4, Instruction(2, 2, 1), Instruction(1, 1, 2));
  }

  lemma ExampleInstructionTwo()
    ensures ParseInstruction(Move2) == Ok(Instruction(3, 1, 3))
  {
    ReadDigits(Move2, Instruction(3, 1, 3));
  }

  lemma ExampleInstructionThree()
    ensures ParseInstruction(Move3) == Ok(Instruction(2, 2, 1))
  {
    ReadDigits(Move3, Instruction(2, 2, 1));
  }

  lemma ExampleInstructionFour()
    ensures ParseInstruction(Move4) == Ok(Instruction(1, 1, 2))
  {
    ReadDigits(Move4, Instruction(1, 1, 2));
  }

  lemma ReadTwo(l1: string, l2: string, i1: Instruction, i2: Instruction)
    requires ParseInstruction(l1) == Ok(i1) && ParseInstruction(l2) == Ok(i2)
    ensures ReadInstructions([l1, l2]) == [i1, i2]
  {
    ReadLineOk(l1, i1);
    ReadLineOk(l2, i2);
    assert [l2][1..] == [];
    assert ReadInstructions([l2]) == [i2];
    assert [l1, l2][1..] == [l2];
  }

  /** An instruction whose numbers are single digits. */
  lemma ReadDigits(line: string, inst: Instruction)
    requires inst.num < 10 && inst.from < 10 && inst.to < 10
    requires line == "move " + [DigitChar(inst.num)] + " from " + [DigitChar(inst.from)]
                    + " to " + [DigitChar(inst.to)]
    ensures ParseInstruction(line) == Ok(inst)
  {
    SingleDigit(inst.num);
    SingleDigit(inst.from);
    SingleDigit(inst.to);
    assert line == FormatInstruction(inst);
    ParseFormatInstruction(inst);
  }

  /** The whole example input: the drawing, a blank line, the moves. */
  const ExampleInput: string := Join(Drawing, "\n") + "\n\n" + Join(Moves, "\n")

  /** The input test: the board and the four instructions. */
  lemma ExampleParse()
    ensures ParseInput(ExampleInput) == Ok((Board(3, ExampleStacks), ExampleInstructions))
  {
    forall i | 0 <= i < |Drawing|
      ensures |Drawing[i]| > 0 && '\n' !in Drawing[i]
    {
    }
    forall i | 0 <= i < |Moves|
      ensures |Moves[i]| > 0 && '\n' !in Moves[i]
    {
    }
    SplitAtBlankLine(Drawing, Moves);
    ExampleBoard();
    forall i, j | 0 <= i < |Moves| && 0 <= j < |Moves[i]|
      ensures Moves[i][j] != '\n'
    {
    }
    LinesOfJoin(Moves);
    ExampleMoves();
  }

  /** The execute test: one crate from stack 1 of a fresh board with Z on
      stack 1 moves to stack 2. */
  lemma ExampleExecute()
    ensures Execute(Board(3, ["Z", "", ""]), Instruction(1, 1, 2), false)
            == (Board(3, ["", "Z", ""]), Done)
  {
    var b := Board(3, ["Z", "", ""]);
    ExecuteOneByOne(b, Instruction(1, 1, 2));
    assert Top("Z", 1) == "Z" && Rest("Z", 1) == "";
    assert Reversed("Z") == "Z";
    assert Moving("Z", 1) == 1;
    var st := OneByOneOutcome(b.stacks, 1, 1, 2).0;
    assert st == b.stacks[0 := ""][1 := "" + "Z"];
    assert "" + "Z" == "Z";
    assert st[0] == "" && st[1] == "Z" && st[2] == "";
    assert st == ["", "Z", ""];
  }

  /** An instruction that has enough crates to move, between two
      different stacks: the destination gains the source's top `num`
      crates, reversed one at a time and in order otherwise. */
  lemma ExecuteMoves(b: Board, inst: Instruction, inOrder: bool, after: seq<Stack>)
    requires 1 <= inst.from <= |b.stacks| && 1 <= inst.to <= |b.stacks| && inst.from != inst.to
    requires inst.num <= |b.stacks[inst.from - 1]|
    requires var src := b.stacks[inst.from - 1];
             var moved := Top(src, inst.num);
             after == b.stacks[inst.from - 1 := Rest(src, inst.num)]
                              [inst.to - 1 := b.stacks[inst.to - 1] + if inOrder then moved else Reversed(moved)]
    ensures Execute(b, inst, inOrder) == (Board(b.num, after), Done)
  {
    if inOrder {
      ExecuteMovesInOrder(b, inst, after);
    } else {
      ExecuteMovesOneByOne(b, inst, after);
    }
  }

  lemma ExecuteMovesInOrder(b: Board, inst: Instruction, after: seq<Stack>)
    requires 1 <= inst.from <= |b.stacks| && 1 <= inst.to <= |b.stacks| && inst.from != inst.to
    requires inst.num <= |b.stacks[inst.from - 1]|
    requires var src := b.stacks[inst.from - 1];
             after == b.stacks[inst.from - 1 := Rest(src, inst.num)][inst.to - 1 := b.stacks[inst.to - 1] + Top(src, inst.num)]
    ensures Execute(b, inst, true) == (Board(b.num, after), Done)
  {
    ExecuteInOrder(b, inst);
  }

  lemma ExecuteMovesOneByOne(b: Board, inst: Instruction, after: seq<Stack>)
    requires 1 <= inst.from <= |b.stacks| && 1 <= inst.to <= |b.stacks| && inst.from != inst.to
    requires inst.num <= |b.stacks[inst.from - 1]|
    requires var src := b.stacks[inst.from - 1];
             after == b.stacks[inst.from - 1 := Rest(src, inst.num)]
                              [inst.to - 1 := b.stacks[inst.to - 1] + Reversed(Top(src, inst.num))]
    ensures Execute(b, inst, false) == (Board(b.num, after), Done)
  {
    ExecuteOneByOne(b, inst);
    var src := b.stacks[inst.from - 1];
    assert Moving(src, inst.num) == inst.num;
    var outcome := OneByOneOutcome(b.stacks, inst.num, inst.from, inst.to);
    assert outcome.0 == after && outcome.1 == Done;
  }

  /** A run whose first instruction completes goes on from its result. */
  lemma RunAllStep(b: Board, insts: seq<Instruction>, inOrder: bool, after: Board)
    requires |insts| > 0 && Execute(b, insts[0], inOrder) == (after, Done)
    ensures RunAll(b, insts, inOrder) == RunAll(after, insts[1..], inOrder)
  {
  }

  /** Three stacks, given one by one. */
  lemma ThreeStacks(s: seq<Stack>, a: Stack, b: Stack, c: Stack)
    requires |s| == 3 && s[0] == a && s[1] == b && s[2] == c
    ensures s == [a, b, c]
  {
  }

  /** Part 1 on the example, instruction by instruction. */
  lemma OneByOneStep1()
    ensures Execute(Board(3, ExampleStacks), Instruction(1, 2, 1), false) == (Board(3, ["ZND", "MC", "P"]), Done)
  {
    assert Top("MCD", 1) == "D" && Rest("MCD", 1) == "MC" && Reversed("D") == "D";
    assert "ZN" + "D" == "ZND";
    ThreeStacks(ExampleStacks[1 := "MC"][0 := "ZN" + "D"], "ZND", "MC", "P");
    ExecuteMoves(Board(3, ExampleStacks), Instruction(1, 2, 1), false, ["ZND", "MC", "P"]);
  }

  lemma OneByOneStep2()
    ensures Execute(Board(3, ["ZND", "MC", "P"]), Instruction(3, 1, 3), false) == (Board(3, ["", "MC", "PDNZ"]), Done)
  {
    var st: seq<Stack> := ["ZND", "MC", "P"];
    assert Top("ZND", 3) == "ZND" && Rest("ZND", 3) == "";
    assert Reversed("ZND") == "DNZ";
    assert "P" + "DNZ" == "PDNZ";
    ThreeStacks(st[0 := ""][2 := "P" + "DNZ"], "", "MC", "PDNZ");
    ExecuteMoves(Board(3, st), Instruction(3, 1, 3), false, ["", "MC", "PDNZ"]);
  }

  lemma OneByOneStep3()
    ensures Execute(Board(3, ["", "MC", "PDNZ"]), Instruction(2, 2, 1), false) == (Board(3, ["CM", "", "PDNZ"]), Done)
  {
    var st: seq<Stack> := ["", "MC", "PDNZ"];
    assert Top("MC", 2) == "MC" && Rest("MC", 2) == "";
    assert Reversed("MC") == "CM";
    assert "" + "CM" == "CM";
    ThreeStacks(st[1 := ""][0 := "" + "CM"], "CM", "", "PDNZ");
    ExecuteMoves(Board(3, st), Instruction(2, 2, 1), false, ["CM", "", "PDNZ"]);
  }

  lemma OneByOneStep4()
    ensures Execute(Board(3, ["CM", "", "PDNZ"]), Instruction(1, 1, 2), false) == (Board(3, ["C", "M", "PDNZ"]), Done)
  {
    var st: seq<Stack> := ["CM", "", "PDNZ"];
    assert Top("CM", 1) == "M" && Rest("CM", 1) == "C" && Reversed("M") == "M";
    assert "" + "M" == "M";
    ThreeStacks(st[0 := "C"][1 := "" + "M"], "C", "M", "PDNZ");
    ExecuteMoves(Board(3, st), Instruction(1, 1, 2), false, ["C", "M", "PDNZ"]);
  }

  /** Part 1 on the example: the stacks end as C / M / P D N Z. */
  lemma ExampleRunOneByOne()
    ensures RunAll(Board(3, ExampleStacks), ExampleInstructions, false) == Some(Board(3, ["C", "M", "PDNZ"]))
  {
    var insts := ExampleInstructions;
    OneByOneStep1();
    OneByOneStep2();
    OneByOneStep3();
    OneByOneStep4();
    RunAllStep(Board(3, ExampleStacks), insts, false, Board(3, ["ZND", "MC", "P"]));
    RunAllStep(Board(3, ["ZND", "MC", "P"]), insts[1..], false, Board(3, ["", "MC", "PDNZ"]));
    RunAllStep(Board(3, ["", "MC", "PDNZ"]), insts[2..], false, Board(3, ["CM", "", "PDNZ"]));
    RunAllStep(Board(3, ["CM", "", "PDNZ"]), insts[3..], false, Board(3, ["C", "M", "PDNZ"]));
    assert insts[1..][1..] == insts[2..] && insts[2..][1..] == insts[3..] && insts[3..][1..] == [];
  }

  /** Part 2 on the example, instruction by instruction. */
  lemma InOrderStep1()
    ensures Execute(Board(3, ExampleStacks), Instruction(1, 2, 1), true) == (Board(3, ["ZND", "MC", "P"]), Done)
  {
    assert Top("MCD", 1) == "D" && Rest("MCD", 1) == "MC";
    assert "ZN" + "D" == "ZND";
    ThreeStacks(ExampleStacks[1 := "MC"][0 := "ZN" + "D"], "ZND", "MC", "P");
    ExecuteMoves(Board(3, ExampleStacks), Instruction(1, 2, 1), true, ["ZND", "MC", "P"]);
  }

  lemma InOrderStep2()
    ensures Execute(Board(3, ["ZND", "MC", "P"]), Instruction(3, 1, 3), true) == (Board(3, ["", "MC", "PZND"]), Done)
  {
    var st: seq<Stack> := ["ZND", "MC", "P"];
    assert Top("ZND", 3) == "ZND" && Rest("ZND", 3) == "";
    assert "P" + "ZND" == "PZND";
    ThreeStacks(st[0 := ""][2 := "P" + "ZND"], "", "MC", "PZND");
    ExecuteMoves(Board(3, st), Instruction(3, 1, 3), true, ["", "MC", "PZND"]);
  }

  lemma InOrderStep3()
    ensures Execute(Board(3, ["", "MC", "PZND"]), Instruction(2, 2, 1), true) == (Board(3, ["MC", "", "PZND"]), Done)
  {
    var st: seq<Stack> := ["", "MC", "PZND"];
    assert Top("MC", 2) == "MC" && Rest("MC", 2) == "";
    assert "" + "MC" == "MC";
    ThreeStacks(st[1 := ""][0 := "" + "MC"], "MC", "", "PZND");
    ExecuteMoves(Board(3, st), Instruction(2, 2, 1), true, ["MC", "", "PZND"]);
  }

  lemma InOrderStep4()
    ensures Execute(Board(3, ["MC", "", "PZND"]), Instruction(1, 1, 2), true) == (Board(3, ["M", "C", "PZND"]), Done)
  {
    var st: seq<Stack> := ["MC", "", "PZND"];
    assert Top("MC", 1) == "C" && Rest("MC", 1) == "M";
    assert "" + "C" == "C";
    ThreeStacks(st[0 := "M"][1 := "" + "C"], "M", "C", "PZND");
    ExecuteMoves(Board(3, st), Instruction(1, 1, 2), true, ["M", "C", "PZND"]);
  }

  /** Part 2 on the example: the stacks end as M / C / P Z N D. */
  lemma ExampleRunInOrder()
    ensures RunAll(Board(3, ExampleStacks), ExampleInstructions, true) == Some(Board(3, ["M", "C", "PZND"]))
  {
    var insts := ExampleInstructions;
    InOrderStep1();
    InOrderStep2();
    InOrderStep3();
    InOrderStep4();
    RunAllStep(Board(3, ExampleStacks), insts, true, Board(3, ["ZND", "MC", "P"]));
    RunAllStep(Board(3, ["ZND", "MC", "P"]), insts[1..], true, Board(3, ["", "MC", "PZND"]));
    RunAllStep(Board(3, ["", "MC", "PZND"]), insts[2..], true, Board(3, ["MC", "", "PZND"]));
    RunAllStep(Board(3, ["MC", "", "PZND"]), insts[3..], true, Board(3, ["M", "C", "PZND"]));
    assert insts[1..][1..] == insts[2..] && insts[2..][1..] == insts[3..] && insts[3..][1..] == [];
  }

  /** The answers of the part tests: "CMZ" and "MCD". */
  lemma ExampleAnswers()
    ensures PartOne(ExampleInput) == Some("CMZ")
    ensures PartTwo(ExampleInput) == Some("MCD")
  {
    ExampleParse();
    ExampleRunOneByOne();
    ExampleRunInOrder();
    ExampleReports();
    SolveFrom(ExampleInput, Board(3, ExampleStacks), ExampleInstructions, false);
    SolveFrom(ExampleInput, Board(3, ExampleStacks), ExampleInstructions, true);
  }

  /** Once the input is read, the answer is the report of the run. */
  lemma SolveFrom(input: string, b: Board, insts: seq<Instruction>, inOrder: bool)
    requires ParseInput(input) == Ok((b, insts))
    ensures Solve(input, inOrder) == match RunAll(b, insts, inOrder)
                                     case None => None
                                     case Some(end) => Some(Report(end.stacks))
  {
  }

  lemma ExampleReports()
    ensures Report(["C", "M", "PDNZ"]) == "CMZ"
    ensures Report(["M", "C", "PZND"]) == "MCD"
  {
    ReportOfThree("C", "M", "PDNZ");
    ReportOfThree("M", "C", "PZND");
    assert TopLetter("C") == "C" && TopLetter("M") == "M";
    assert TopLetter("PDNZ") == "Z" && TopLetter("PZND") == "D";
    assert "C" + "M" + "Z" == "CMZ";
    assert "M" + "C" + "D" == "MCD";
  }

  lemma ReportOfThree(a: Stack, b: Stack, c: Stack)
    ensures Report([a, b, c]) == TopLetter(a) + TopLetter(b) + TopLetter(c)
  {
    assert [a, b, c][..2] == [a, b];
    assert [a, b][..1] == [a];
    assert [a][..0] == [];
    assert Report([a]) == "" + TopLetter(a) == TopLetter(a);
    assert Report([a, b]) == TopLetter(a) + TopLetter(b);
  }
}
