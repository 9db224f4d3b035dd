/**
  * Decoding tables as `inflate` uses them (dep/zlib/inflate.c): built by `inflate_table` for the code at hand.
  */
module DecodeTables {
  import opened Arith
  import opened Canonical
  import opened Decoder
  import IT = InflateTable
  import TB = TableBuilder
  import TS = TableSize

  /** A decoding table and the number of bits of its first level. */
  datatype Lookup = Lookup(table: seq<IT.Entry>, root: nat)

  /** The table decodes the code with the given lengths; that of the code length code has one level only. */
  ghost predicate Decoding(kind: IT.Kind, lens: seq<nat>, t: Lookup)
  {
    && |lens| <= IT.MaxSymbols(kind) && IT.Decodes(kind, lens, t.table, t.root) && !IT.Refused(kind, lens)
    && (kind.CODES? ==> TB.Flat(t.table, t.root))
  }

  /** Builds a table with `bits` index bits at the first level. The result is 0, or -1 for lengths that are refused,
      or 1 when the table does not fit, which does not happen to the codes of a stream. */
  method MakeTable(kind: IT.Kind, lens: seq<nat>, bits: nat) returns (ret: int, t: Lookup)
    requires ValidLens(lens) && |lens| <= IT.MaxSymbols(kind)
    requires kind == IT.CODES ==> bits == 7 && forall i :: 0 <= i < |lens| ==> lens[i] <= 7
    ensures ret in {0, 1, -1} && (ret == -1 <==> IT.Refused(kind, lens)) && (ret == 0 ==> Decoding(kind, lens, t))
    ensures ret == 1 <==> !IT.Refused(kind, lens) && TS.TooMuch(kind, TS.Entries(lens, bits))
    ensures TS.Admitted(kind, lens, bits) ==> ret != 1
  {
    hide IT.Refused, IT.Decodes, TB.Flat, TS.Entries, TS.Admitted, ValidLens;
    var table := new IT.Entry[IT.ENOUGH_LENS](i => IT.INVALID);
    SevenBits();
    var root, used;
    ret, root, used := TB.BuildTable(kind, lens, table, bits);
    t := Lookup(table[..], root);
    if TS.Admitted(kind, lens, bits) && !IT.Refused(kind, lens) { TS.EnoughIsEnough(kind, lens, bits); }
  }

  lemma SevenBits()
    ensures Pow2(7) == 128
  {
  }
}
