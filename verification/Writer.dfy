/**
 * The streaming encoder: add and open/close calls that append to one buffer of
 * fixed capacity, where the head of a container is inserted when it is closed.
 */
module Writers {
  import opened Wrappers
  import opened Bytes
  import opened Cbor

  /** An open container: where its content starts and how many entries it has. */
  datatype Frame = Frame(isMap: bool, start: nat, count: nat)

  /** Map entries are counted once, label and value together. */
  function Entries(isMap: bool, items: seq<Item>): nat {
    if isMap then |items| / 2 else |items|
  }

  /** The bytes of open containers whose heads are not written yet. */
  function Flat(open: seq<seq<Item>>): seq<byte> {
    if open == [] then [] else Flat(open[..|open| - 1]) + EncAll(open[|open| - 1])
  }

  /** The items of the innermost open container, and those of the others. */
  function Inner(open: seq<seq<Item>>): (r: seq<Item>)
    requires open != []
  {
    open[|open| - 1]
  }

  function Outer(open: seq<seq<Item>>): (r: seq<seq<Item>>)
    requires open != []
    ensures |r| == |open| - 1
  {
    open[..|open| - 1]
  }

  /** The innermost open container gains more items. */
  function Grow(open: seq<seq<Item>>, more: seq<Item>): (r: seq<seq<Item>>)
    requires open != []
    ensures |r| == |open| && Outer(r) == Outer(open) && Inner(r) == Inner(open) + more
  {
    Outer(open) + [Inner(open) + more]
  }

  function Add(open: seq<seq<Item>>, t: Item): (r: seq<seq<Item>>)
    requires open != []
    ensures |r| == |open|
  {
    Grow(open, [t])
  }

  lemma AddTwo(open: seq<seq<Item>>, s: Item, t: Item)
    requires open != []
    ensures Add(Add(open, s), t) == Grow(open, [s, t])
  {
    var n := |open| - 1;
    assert open[n] + [s] + [t] == open[n] + [s, t];
  }

  /** The innermost container becomes an item of the one around it. */
  function Closed(open: seq<seq<Item>>, isMap: bool): seq<seq<Item>>
    requires |open| >= 2
  {
    Add(Outer(open), if isMap then Map(true, Inner(open)) else Array(true, Inner(open)))
  }

  lemma FlatOfAdd(open: seq<seq<Item>>, t: Item)
    requires open != []
    ensures Flat(Add(open, t)) == Flat(open) + Enc(t)
  {
    hide Enc, EncAll;
    var n := |open| - 1;
    assert Add(open, t)[..n] == open[..n];
    EncAllConcat(open[n], [t]);
    EncOfOne(t);
  }

  lemma EncOfOne(t: Item)
    ensures EncAll([t]) == Enc(t)
  {
    EncAllCons(t, []);
    assert [t] + [] == [t];
  }

  lemma FlatOfInner(open: seq<seq<Item>>)
    requires open != []
    ensures Flat(open) == Flat(open[..|open| - 1]) + EncAll(open[|open| - 1])
  {
  }

  lemma FlatOfClosed(open: seq<seq<Item>>, isMap: bool)
    requires |open| >= 2
    ensures Flat(Closed(open, isMap))
         == Flat(open[..|open| - 1]) + Head(if isMap then 5 else 4, Entries(isMap, open[|open| - 1]))
            + EncAll(open[|open| - 1])
  {
    var n := |open| - 1;
    FlatOfAdd(open[..n], if isMap then Map(true, open[n]) else Array(true, open[n]));
  }

  //
  // The frames of open containers
  //

  ghost predicate FrameOk(frame: Frame, open: seq<seq<Item>>, i: nat, failed: bool)
    requires i + 1 < |open|
  {
    (failed || frame.start == |Flat(open[..i + 1])|) && frame.count == Entries(frame.isMap, open[i + 1])
  }

  ghost predicate Framed(stack: seq<Frame>, open: seq<seq<Item>>, failed: bool) {
    |open| == |stack| + 1 && forall i | 0 <= i < |stack| :: FrameOk(stack[i], open, i, failed)
  }

  /** Which open containers are maps. */
  function Kinds(stack: seq<Frame>): (r: seq<bool>)
    ensures |r| == |stack|
  {
    seq(|stack|, i requires 0 <= i < |stack| => stack[i].isMap)
  }

  /** A label must come next; `kinds` says which open containers are maps. */
  predicate WantsLabel(kinds: seq<bool>, open: seq<seq<Item>>) {
    |open| == |kinds| + 1 && kinds != [] && kinds[|kinds| - 1] && |Inner(open)| % 2 == 0
  }

  /** An item may come next. */
  predicate WantsItem(kinds: seq<bool>, open: seq<seq<Item>>) {
    |open| == |kinds| + 1 && !WantsLabel(kinds, open)
  }

  /** The innermost container gains one entry. */
  function Counted(stack: seq<Frame>): seq<Frame> {
    if stack == [] then []
    else
      var n := |stack| - 1;
      stack[..n] + [stack[n].(count := stack[n].count + 1)]
  }

  lemma FrameOfAdd(frame: Frame, open: seq<seq<Item>>, i: nat, t: Item, failed: bool, failedNow: bool)
    requires i + 1 < |open| && FrameOk(frame, open, i, failed) && (failed ==> failedNow)
    ensures i + 2 < |open| ==> FrameOk(frame, Add(open, t), i, failedNow)
    ensures i + 2 == |open| ==>
              FrameOk(if frame.isMap && |Inner(open)| % 2 == 0 then frame else frame.(count := frame.count + 1),
                      Add(open, t), i, failedNow)
  {
    hide Enc, EncAll, Head, Flat;
    assert Add(open, t)[..i + 1] == open[..i + 1];
  }

  lemma FramedOfAdd(stack: seq<Frame>, open: seq<seq<Item>>, t: Item, failed: bool, failedNow: bool)
    requires Framed(stack, open, failed) && (failed ==> failedNow)
    ensures WantsItem(Kinds(stack), open) ==> Framed(Counted(stack), Add(open, t), failedNow)
    ensures WantsLabel(Kinds(stack), open) ==> Framed(stack, Add(open, t), failedNow)
  {
    forall i | 0 <= i < |stack|
      ensures i + 1 < |stack| ==> FrameOk(stack[i], Add(open, t), i, failedNow)
      ensures i + 1 == |stack| && WantsLabel(Kinds(stack), open) ==> FrameOk(stack[i], Add(open, t), i, failedNow)
      ensures i + 1 == |stack| && WantsItem(Kinds(stack), open) ==>
                FrameOk(stack[i].(count := stack[i].count + 1), Add(open, t), i, failedNow)
    {
      hide Enc, EncAll, Head, Flat;
      assert FrameOk(stack[i], open, i, failed);
      FrameOfAdd(stack[i], open, i, t, failed, failedNow);
    }
    hide FrameOk;
    assert forall i | 0 <= i < |stack| - 1 :: Counted(stack)[i] == stack[i];
  }

  lemma FramedOfOpen(stack: seq<Frame>, open: seq<seq<Item>>, frame: Frame, failed: bool)
    requires Framed(stack, open, failed)
    requires (failed || frame.start == |Flat(open)|) && frame.count == 0
    ensures Framed(stack + [frame], open + [[]], failed)
  {
    assert (open + [[]])[..|open|] == open;
    forall i | 0 <= i < |stack| ensures open[..i + 1] == (open + [[]])[..i + 1] && FrameOk(stack[i], open, i, failed) {
    }
  }

  lemma FramedOfPrefix(stack: seq<Frame>, open: seq<seq<Item>>, failed: bool)
    requires Framed(stack, open, failed) && stack != []
    ensures Framed(stack[..|stack| - 1], open[..|stack|], failed)
  {
    forall i | 0 <= i < |stack| - 1
      ensures open[..|stack|][..i + 1] == open[..i + 1] && FrameOk(stack[i], open, i, failed)
    {
    }
  }

  /** Encoding fails instead of truncating. */
  function Fit(b: seq<byte>, capacity: nat): Result<seq<byte>> {
    if |b| <= capacity then Ok(b) else CodecError
  }

  /** The buffer holds the open items, or has overflowed because they do not fit. */
  ghost predicate Buffered(buffer: seq<byte>, open: seq<seq<Item>>, failed: bool, capacity: nat) {
    (failed <==> |Flat(open)| > capacity) && (!failed ==> buffer == Flat(open))
  }

  class Writer {
    const capacity: nat
    var buffer: seq<byte>
    var stack: seq<Frame>
    var failed: bool
    /** The items of every open container, the outermost sequence first. */
    ghost var open: seq<seq<Item>>

    ghost predicate Valid()
      reads this
    {
      Framed(stack, open, failed) && Buffered(buffer, open, failed, capacity)
    }

    constructor (capacity: nat)
      ensures Valid() && open == [[]] && stack == [] && this.capacity == capacity
    {
      this.capacity := capacity;
      buffer, stack, failed, open := [], [], false, [[]];
    }

    /** Appends the bytes of one item, or fails for good when they do not fit. */
    method Append(bytes: seq<byte>, ghost t: Item)
      requires Valid() && bytes == Enc(t)
      modifies this`buffer, this`failed, this`open
      ensures open == Add(old(open), t) && Buffered(buffer, open, failed, capacity)
      ensures old(failed) ==> failed
    {
      FlatOfAdd(open, t);
      if failed || |buffer| + |bytes| > capacity {
        failed := true;
      } else {
        buffer := buffer + bytes;
      }
      open := Add(open, t);
    }

    /** Appends one complete item to the innermost container. */
    method AddItem(bytes: seq<byte>, ghost t: Item)
      requires Valid() && WantsItem(Kinds(stack), open) && bytes == Enc(t)
      modifies this
      ensures Valid() && open == Add(old(open), t) && Kinds(stack) == Kinds(old(stack))
    {
      Append(bytes, t);
      stack := Counted(stack);
      FramedOfAdd(old(stack), old(open), t, old(failed), failed);
    }

    /** Appends the label of a map entry. */
    method AddLabel(key: nat)
      requires Valid() && WantsLabel(Kinds(stack), open)
      modifies this
      ensures Valid() && open == Add(old(open), UInt(key)) && stack == old(stack)
    {
      Append(Head(0, key), UInt(key));
      FramedOfAdd(old(stack), old(open), UInt(key), old(failed), failed);
    }

    method AddUInt64(v: u64)
      requires Valid() && WantsItem(Kinds(stack), open)
      modifies this
      ensures Valid() && open == Add(old(open), UInt(v)) && Kinds(stack) == Kinds(old(stack))
    {
      AddItem(Head(0, v), UInt(v));
    }

    method AddText(s: seq<byte>)
      requires Valid() && WantsItem(Kinds(stack), open)
      modifies this
      ensures Valid() && open == Add(old(open), Text(s)) && Kinds(stack) == Kinds(old(stack))
    {
      AddItem(Head(3, |s|) + s, Text(s));
    }

    method AddBytes(s: seq<byte>)
      requires Valid() && WantsItem(Kinds(stack), open)
      modifies this
      ensures Valid() && open == Add(old(open), Bytes(s)) && Kinds(stack) == Kinds(old(stack))
    {
      AddItem(Head(2, |s|) + s, Bytes(s));
    }

    method AddUInt64ToMapN(key: nat, v: u64)
      requires Valid() && WantsLabel(Kinds(stack), open)
      modifies this
      ensures Valid() && open == Grow(old(open), [UInt(key), UInt(v)]) && Kinds(stack) == Kinds(old(stack))
    {
      AddTwo(open, UInt(key), UInt(v));
      AddLabel(key);
      AddUInt64(v);
    }

    method AddInt64ToMapN(key: nat, v: i64)
      requires Valid() && WantsLabel(Kinds(stack), open)
      modifies this
      ensures Valid() && open == Grow(old(open), [UInt(key), IntItem(v)]) && Kinds(stack) == Kinds(old(stack))
    {
      AddTwo(open, UInt(key), IntItem(v));
      AddLabel(key);
      if v >= 0 {
        AddItem(Head(0, v), UInt(v));
      } else {
        AddItem(Head(1, -1 - v), NInt(-1 - v));
      }
    }

    method AddTextToMapN(key: nat, s: seq<byte>)
      requires Valid() && WantsLabel(Kinds(stack), open)
      modifies this
      ensures Valid() && open == Grow(old(open), [UInt(key), Text(s)]) && Kinds(stack) == Kinds(old(stack))
    {
      AddTwo(open, UInt(key), Text(s));
      AddLabel(key);
      AddText(s);
    }

    method AddBytesToMapN(key: nat, s: seq<byte>)
      requires Valid() && WantsLabel(Kinds(stack), open)
      modifies this
      ensures Valid() && open == Grow(old(open), [UInt(key), Bytes(s)]) && Kinds(stack) == Kinds(old(stack))
    {
      AddTwo(open, UInt(key), Bytes(s));
      AddLabel(key);
      AddBytes(s);
    }

    method Open(isMap: bool)
      requires Valid() && WantsItem(Kinds(stack), open)
      modifies this
      ensures Valid() && open == old(open) + [[]] && Outer(open) == old(open)
      ensures Kinds(stack) == Kinds(old(stack)) + [isMap]
    {
      var frame := Frame(isMap, |buffer|, 0);
      FramedOfOpen(stack, open, frame, failed);
      assert (open + [[]])[..|open|] == open && Flat(open + [[]]) == Flat(open) + [];
      stack, open := stack + [frame], open + [[]];
    }

    method OpenInMapN(key: nat, isMap: bool)
      requires Valid() && WantsLabel(Kinds(stack), open)
      modifies this
      ensures Valid() && Inner(open) == [] && Outer(open) == Add(old(open), UInt(key))
      ensures Kinds(stack) == Kinds(old(stack)) + [isMap]
    {
      AddLabel(key);
      Open(isMap);
    }

    /** Inserts the head of the innermost container in front of its content. */
    method Close(isMap: bool)
      requires Valid() && stack != [] && Kinds(stack)[|stack| - 1] == isMap
      requires isMap ==> WantsLabel(Kinds(stack), open)
      requires WantsItem(Kinds(stack)[..|stack| - 1], Outer(open))
      modifies this
      ensures Valid() && open == Closed(old(open), isMap)
      ensures Kinds(stack) == Kinds(old(stack))[..|old(stack)| - 1]
    {
      hide Enc, EncAll, Head, Flat;
      var n := |stack| - 1;
      var frame := stack[n];
      assert Kinds(stack[..n]) == Kinds(stack)[..n];
      ghost var frames, before := stack, open;
      assert FrameOk(frame, open, n, failed);
      FramedOfPrefix(stack, open, failed);
      ghost var wasFailed := failed;
      buffer, failed := Inserted(frame);
      stack, open := Counted(stack[..n]), Closed(open, isMap);
      FramedOfAdd(frames[..n], Outer(before), if isMap then Map(true, Inner(before)) else Array(true, Inner(before)),
                  wasFailed, failed);
    }

    /** The buffer with the head of the innermost container in place. */
    method Inserted(frame: Frame) returns (b: seq<byte>, overflow: bool)
      requires Buffered(buffer, open, failed, capacity) && |open| >= 2
      requires FrameOk(frame, open, |open| - 2, failed)
      ensures Buffered(b, Closed(open, frame.isMap), overflow, capacity) && (failed ==> overflow)
    {
      hide Enc, EncAll, Head, Flat, Closed;
      var head := Head(if frame.isMap then 5 else 4, frame.count);
      FlatOfClosed(open, frame.isMap);
      ghost var n := |open| - 1;
      FlatOfInner(open);
      if failed || |buffer| + |head| > capacity {
        return buffer, true;
      }
      assert buffer[..frame.start] == Flat(open[..n]) && buffer[frame.start..] == EncAll(open[n]);
      return buffer[..frame.start] + head + buffer[frame.start..], false;
    }

    /** The whole output, if it fitted. */
    method Finish() returns (r: Result<seq<byte>>)
      requires Valid() && stack == [] && |open[0]| == 1
      ensures r == Fit(Enc(open[0][0]), capacity)
    {
      assert open[..0] == [] && Flat(open[..0]) == [];
      EncAllCons(open[0][0], []);
      assert open[0] == [open[0][0]] + [];
      assert Flat(open) == Enc(open[0][0]);
      r := if failed then CodecError else Ok(buffer);
    }
  }
}
