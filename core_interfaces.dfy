/** The "if" property oc_core_encode_interfaces_mask writes: the names of
    the interfaces in a mask, as the list of strings the encoder emits. */
module CoreInterfaces {

  /** Interface bits of oc_interface_mask_t. */
  const IfBaseline: bv32 := 0x2
  const IfLl: bv32 := 0x4
  const IfB: bv32 := 0x8
  const IfR: bv32 := 0x10
  const IfRw: bv32 := 0x20
  const IfA: bv32 := 0x40
  const IfS: bv32 := 0x80
  const IfCreate: bv32 := 0x100
  const IfW: bv32 := 0x200
  const IfStartup: bv32 := 0x400
  const IfStartupRevert: bv32 := 0x800

  /** The interfaces in the order the encoder tests them, and their names. */
  const IfOrder: seq<bv32> := [IfR, IfRw, IfA, IfS, IfLl, IfCreate, IfB, IfBaseline, IfW, IfStartup, IfStartupRevert]
  const IfNames: seq<string> := ["oic.if.r", "oic.if.rw", "oic.if.a", "oic.if.s", "oic.if.ll", "oic.if.create",
                                 "oic.if.b", "oic.if.baseline", "oic.if.w", "oic.if.startup", "oic.if.startup.revert"]
  const IfCount := 11

  /** Every bit the encoder knows. */
  const AllInterfaces: bv32 := 0xFFE

  /** Which interfaces of the order are set in `mask`. */
  function Present(mask: bv32): (r: seq<bool>)
    ensures |r| == IfCount
  {
    seq(IfCount, k requires 0 <= k < IfCount => mask & IfOrder[k] != 0)
  }

  /** The k-th interface is present iff its bit is set. */
  lemma PresentAt(mask: bv32, k: nat)
    requires k < IfCount
    ensures Present(mask)[k] <==> mask & IfOrder[k] != 0
  {
  }

  /** The names of `table`, from the k-th on, whose positions `p` marks. */
  function Listed(table: seq<string>, p: seq<bool>, k: nat): (r: seq<string>)
    requires |p| == |table| && k <= |table|
    ensures |r| <= |table| - k
    decreases |table| - k
  {
    if k == |table| then []
    else (if p[k] then [table[k]] else []) + Listed(table, p, k + 1)
  }

  /** oc_core_encode_interfaces_mask: for each interface of the fixed order
      R, RW, A, S, LL, CREATE, B, BASELINE, W, STARTUP, STARTUP_REVERT whose
      bit is set in `mask`, its name. */
  function EncodeInterfaces(mask: bv32): (r: seq<string>)
    ensures |r| <= IfCount
  {
    Listed(IfNames, Present(mask), 0)
  }

  /** No name occurs twice in `names`. */
  predicate Distinct(names: seq<string>) {
    forall i, j :: 0 <= i < j < |names| ==> names[i] != names[j]
  }

  /** The interface names are distinct. */
  lemma IfNamesDistinct()
    ensures |IfNames| == IfCount && Distinct(IfNames)
  {
    forall i, j | 0 <= i < j < IfCount
      ensures IfNames[i] != IfNames[j]
    {
      assert IfNames[i][7..] != IfNames[j][7..];
    }
  }

  /** The position of `x` in `table`, from k on (|table| when absent). */
  function Rank(table: seq<string>, x: string, k: nat): (r: nat)
    requires k <= |table|
    ensures k <= r <= |table|
    ensures r < |table| ==> table[r] == x
    decreases |table| - k
  {
    if k == |table| then |table|
    else if table[k] == x then k
    else Rank(table, x, k + 1)
  }

  /** In a table of distinct names each name sits at its own position. */
  lemma {:induction false} RankOf(table: seq<string>, j: nat, k: nat)
    requires Distinct(table) && k <= j < |table|
    ensures Rank(table, table[j], k) == j
    decreases j - k
  {
    if k < j {
      RankOf(table, j, k + 1);
    }
  }

  /** A name is listed from k on iff it is in the table at a marked
      position from k on. */
  lemma {:induction false} ListedMember(table: seq<string>, p: seq<bool>, k: nat, x: string)
    requires |p| == |table| && Distinct(table) && k <= |table|
    ensures x in Listed(table, p, k) <==> k <= Rank(table, x, 0) < |table| && p[Rank(table, x, 0)]
    decreases |table| - k
  {
    if k < |table| {
      ListedMember(table, p, k + 1, x);
      RankOf(table, k, 0);
    }
  }

  /** `names` is `table` with some names left out: it keeps the table's order. */
  predicate Subsequence(names: seq<string>, table: seq<string>)
    decreases |table|
  {
    names == [] || (table != [] && ((names[0] == table[0] && Subsequence(names[1..], table[1..])) || Subsequence(names, table[1..])))
  }

  /** The names listed from k on keep the order of the table. */
  lemma {:induction false} ListedSubsequence(table: seq<string>, p: seq<bool>, k: nat)
    requires |p| == |table| && k <= |table|
    ensures Subsequence(Listed(table, p, k), table[k..])
    decreases |table| - k
  {
    if k < |table| {
      ListedSubsequence(table, p, k + 1);
      var tail := Listed(table, p, k + 1);
      assert table[k..][1..] == table[k + 1..];
      if p[k] {
        assert ([table[k]] + tail)[1..] == tail;
      } else {
        assert Listed(table, p, k) == tail;
      }
    }
  }

  /** The names listed from a distinct table are distinct. */
  lemma {:induction false} ListedDistinct(table: seq<string>, p: seq<bool>, k: nat)
    requires |p| == |table| && Distinct(table) && k <= |table|
    ensures Distinct(Listed(table, p, k))
    decreases |table| - k
  {
    if k < |table| && p[k] {
      ListedDistinct(table, p, k + 1);
      var tail := Listed(table, p, k + 1);
      RankOf(table, k, 0);
      ListedMember(table, p, k + 1, table[k]);
      DistinctCons(table[k], tail);
    } else if k < |table| {
      ListedDistinct(table, p, k + 1);
    }
  }

  /** A name not in a distinct list can be put in front of it. */
  lemma DistinctCons(x: string, names: seq<string>)
    requires Distinct(names) && x !in names
    ensures Distinct([x] + names)
  {
    var r := [x] + names;
    forall i, j | 0 <= i < j < |r|
      ensures r[i] != r[j]
    {
      assert r[j] == names[j - 1];
      if i > 0 {
        assert r[i] == names[i - 1];
      }
    }
  }

  /** An interface's name is emitted iff its bit is set in the mask. */
  lemma EncodeMember(mask: bv32, j: nat)
    requires j < IfCount
    ensures IfNames[j] in EncodeInterfaces(mask) <==> mask & IfOrder[j] != 0
  {
    IfNamesDistinct();
    ListedMember(IfNames, Present(mask), 0, IfNames[j]);
    RankOf(IfNames, j, 0);
    PresentAt(mask, j);
  }

  /** Only interface names are emitted. */
  lemma EncodeOnlyNames(mask: bv32, x: string)
    requires x in EncodeInterfaces(mask)
    ensures x in IfNames
  {
    IfNamesDistinct();
    ListedMember(IfNames, Present(mask), 0, x);
  }

  /** The names are emitted in the fixed order of the encoder, each once. */
  lemma EncodeOrdered(mask: bv32)
    ensures Subsequence(EncodeInterfaces(mask), IfNames)
    ensures Distinct(EncodeInterfaces(mask))
  {
    IfNamesDistinct();
    ListedSubsequence(IfNames, Present(mask), 0);
    assert IfNames[0..] == IfNames;
    ListedDistinct(IfNames, Present(mask), 0);
  }

  /** Nothing marked from k on: nothing listed. */
  lemma {:induction false} ListedNone(table: seq<string>, p: seq<bool>, k: nat)
    requires |p| == |table| && k <= |table|
    requires forall j :: k <= j < |table| ==> !p[j]
    ensures Listed(table, p, k) == []
    decreases |table| - k
  {
    if k < |table| {
      ListedNone(table, p, k + 1);
    }
  }

  /** Each interface is one known bit. */
  lemma BitOf(k: nat)
    requires k < IfCount
    ensures IfOrder[k] != 0 && IfOrder[k] & (IfOrder[k] - 1) == 0
    ensures IfOrder[k] & AllInterfaces == IfOrder[k]
  {
  }

  /** A mask with no known interface (0 in particular) encodes to nothing. */
  lemma EncodeNone(mask: bv32)
    requires mask & AllInterfaces == 0
    ensures EncodeInterfaces(mask) == []
  {
    var p := Present(mask);
    forall j | 0 <= j < IfCount
      ensures !p[j]
    {
      BitOf(j);
      PresentAt(mask, j);
    }
    ListedNone(IfNames, p, 0);
  }

  /** No two interfaces share a bit. */
  lemma BitsDisjoint(i: nat, j: nat)
    requires i < IfCount && j < IfCount && i != j
    ensures IfOrder[i] & IfOrder[j] == 0
  {
  }

  /** Only the j-th position marked: only its name listed (from any k <= j). */
  lemma {:induction false} ListedSingle(table: seq<string>, p: seq<bool>, j: nat, k: nat)
    requires |p| == |table| && j < |table| && k <= |table|
    requires forall i :: 0 <= i < |table| ==> (p[i] <==> i == j)
    ensures Listed(table, p, k) == if k <= j then [table[j]] else []
    decreases |table| - k
  {
    if k < |table| {
      ListedSingle(table, p, j, k + 1);
    }
  }

  /** A single interface bit is encoded as exactly its own name. */
  lemma EncodeSingle(j: nat)
    requires j < IfCount
    ensures EncodeInterfaces(IfOrder[j]) == [IfNames[j]]
  {
    var p := Present(IfOrder[j]);
    forall i | 0 <= i < IfCount
      ensures p[i] <==> i == j
    {
      if i != j {
        BitsDisjoint(j, i);
      } else {
        BitOf(j);
      }
    }
    ListedSingle(IfNames, p, j, 0);
  }
}
