/**
  * Writing bits (`send_bits`, `bi_flush` and `bi_windup` of dep/zlib/trees.c) and reading them again (NEEDBITS, BITS
  * and DROPBITS of dep/zlib/inflate.c).
  */
module BitRoundTrip {
  import opened Arith
  import opened BitStream

  datatype Action = Put(value: nat, width: nat) | Flush

  /** The values that are put, in order, first bit lowest. */
  function Written(actions: seq<Action>): Bits
  {
    if actions == [] then []
    else (if actions[0].Put? then ToBits(actions[0].value, actions[0].width) else []) + Written(actions[1..])
  }

  function Values(actions: seq<Action>): seq<nat>
  {
    if actions == [] then [] else (if actions[0].Put? then [actions[0].value] else []) + Values(actions[1..])
  }

  predicate Puttable(a: Action)
  {
    a.Put? ==> a.width <= 16 && a.value < Pow2(a.width)
  }

  lemma {:induction false} WrittenNext(actions: seq<Action>, i: nat, j: nat)
    requires i < |actions| && j == i + 1
    ensures Written(actions[..j]) == Written(actions[..i]) + if actions[i].Put?
            then ToBits(actions[i].value, actions[i].width) else []
  {
    hide ToBits;
    assert actions[..j][1..] == actions[1..][..i];
    if i != 0 {
      assert actions[..i][1..] == actions[1..][..i - 1];
      WrittenNext(actions[1..], i - 1, i);
    }
  }

  /** Writes everything, and whole bytes in between whenever there is a flush. */
  method WriteAll(w: BitWriter, actions: seq<Action>)
    requires w.Valid() && w.Stream() == [] && forall i :: 0 <= i < |actions| ==> Puttable(actions[i])
    modifies w
    ensures w.Valid() && w.Stream() == Written(actions)
  {
    hide ToBits, BytesBits, Pow2;
    var i := 0;
    while i < |actions|
      invariant i <= |actions| && w.Valid() && w.Stream() == Written(actions[..i])
    {
      WrittenNext(actions, i, i + 1);
      assert Puttable(actions[i]);
      match actions[i] {
        case Put(value, width) => w.SendBits(value, width);
        case Flush => w.BiFlush();
      }
      i := i + 1;
    }
    assert actions[..i] == actions;
  }

  /** Reads the same widths again. */
  method ReadAll(r: BitReader, actions: seq<Action>, ghost rest: Bits) returns (values: seq<nat>)
    requires r.Valid() && r.Remaining() == Written(actions) + rest && forall i :: 0 <= i < |actions| ==>
             Puttable(actions[i])
    modifies r`next, r`hold, r`bits
    ensures r.Valid() && values == Values(actions) && r.Remaining() == rest
  {
    hide ToBits, BytesBits, FromBits, Pow2, Written, Values;
    values := [];
    var i := 0;
    while i < |actions|
      invariant i <= |actions| && r.Valid() && r.Remaining() == Written(actions[i..]) + rest
      invariant values + Values(actions[i..]) == Values(actions)
    {
      FirstAction(actions, i, values, rest, r.Remaining());
      if actions[i].Put? {
        FirstWord(actions[i].value, actions[i].width, Written(actions[i + 1..]) + rest, r.Remaining());
        var ok, v := r.TakeBits(actions[i].width);
        values := values + [v];
      }
      i := i + 1;
    }
    NothingWritten(actions, values, rest);
  }

  lemma FirstAction(actions: seq<Action>, i: nat, values: seq<nat>, rest: Bits, all: Bits)
    requires i < |actions| && all == Written(actions[i..]) + rest && values + Values(actions[i..]) == Values(actions)
    ensures var a, later := actions[i], actions[i + 1..];
      && all == (if a.Put? then ToBits(a.value, a.width) else []) + (Written(later) + rest)
      && (values + if a.Put? then [a.value] else []) + Values(later) == Values(actions)
  {
    hide ToBits;
    assert actions[i..][0] == actions[i] && actions[i..][1..] == actions[i + 1..];
  }

  lemma NothingWritten(actions: seq<Action>, values: seq<nat>, rest: Bits)
    ensures actions[|actions|..] == [] && Written([]) + rest == rest && values + Values([]) == values
  {
  }

  lemma FirstWord(value: nat, width: nat, rest: Bits, all: Bits)
    requires value < Pow2(width) && all == ToBits(value, width) + rest
    ensures |all| >= width && all[width..] == rest && FromBits(all[..width]) == value
  {
    assert all[..width] == ToBits(value, width);
    FromToBits(value, width);
    LowSmall(value, width);
  }

  /** What is written is read back, whatever is flushed in between and however the last byte is filled up. */
  method WriteThenRead(actions: seq<Action>) returns (values: seq<nat>)
    requires forall i :: 0 <= i < |actions| ==> Puttable(actions[i])
    ensures values == Values(actions)
  {
    hide BytesBits, ToBits, Pow2, Written, Values;
    var w := new BitWriter();
    WriteAll(w, actions);
    w.BiWindup();
    var r := new BitReader();
    r.Supply(w.pending);
    ghost var rest := Zeros((8 - |Written(actions)| % 8) % 8);
    assert r.Remaining() == Written(actions) + rest;
    values := ReadAll(r, actions, rest);
  }
}
