/**
 * The mapping-table builder of multi_ir.c: `generate_mapping_table`.
 *
 * For each customer slot, in ascending index order, the builder looks up
 * the first non-reserved default slot with the same name and records, at
 * the customer slot's keycode, that default slot's keycode. The first
 * customer key named "POWER" that finds a match sets the power key. The
 * value 0 stands both for "no mapping" and for the reserved keycode.
 */
module Mapping {
  import opened Header
  import opened CStrings
  import opened KeyMap

  const POWER_NAME := "POWER"

  /** Default slot `e` can be the target of a customer key named `name`. */
  predicate IsMatch(e: Entry, name: string) {
    e.keycode != RESERVE_CODE && e.name == name
  }

  /** The first default slot at or after index `j` that matches `name`. */
  function FirstMatchFrom(src: seq<Entry>, name: string, j: nat): (r: Option<nat>)
    requires j <= |src|
    ensures r.Some? ==> j <= r.value < |src| && IsMatch(src[r.value], name)
    ensures r.Some? ==> forall j' :: j <= j' < r.value ==> !IsMatch(src[j'], name)
    ensures r.None? ==> forall j' :: j <= j' < |src| ==> !IsMatch(src[j'], name)
    decreases |src| - j
  {
    if j == |src| then None
    else if IsMatch(src[j], name) then Some(j)
    else FirstMatchFrom(src, name, j + 1)
  }

  /** The first default slot that matches `name`, if any. */
  function FirstMatch(src: seq<Entry>, name: string): Option<nat> {
    FirstMatchFrom(src, name, 0)
  }

  /** A matching slot with no match before it is the first match. */
  lemma FirstMatchAt(src: seq<Entry>, name: string, j: nat)
    requires j < |src| && IsMatch(src[j], name)
    requires forall j' :: 0 <= j' < j ==> !IsMatch(src[j'], name)
    ensures FirstMatch(src, name) == Some(j)
  {
  }

  /** Every customer keycode indexes the table, as `value[des->keycode]` needs. */
  ghost predicate KeycodesInRange(des: seq<Entry>) {
    forall i :: 0 <= i < |des| ==> 0 <= des[i].keycode < KEYCODE_CNT
  }

  /** The table values after the first `n` customer slots have been processed. */
  function ValuesAfter(src: seq<Entry>, des: seq<Entry>, n: nat): (v: seq<int>)
    requires n <= |des| && KeycodesInRange(des)
    ensures |v| == KEYCODE_CNT
  {
    if n == 0 then seq(KEYCODE_CNT, _ => 0)
    else
      var v := ValuesAfter(src, des, n - 1);
      match FirstMatch(src, des[n - 1].name)
      case None => v
      case Some(j) => v[des[n - 1].keycode := src[j].keycode]
  }

  /** The power key after the first `n` customer slots have been processed. */
  function PowerKeyAfter(src: seq<Entry>, des: seq<Entry>, n: nat): int
    requires n <= |des|
  {
    if n == 0 then 0
    else
      var p := PowerKeyAfter(src, des, n - 1);
      if FirstMatch(src, des[n - 1].name).Some? && p == 0 && des[n - 1].name == POWER_NAME
      then des[n - 1].keycode
      else p
  }

  /** The table values once every customer slot has been processed. */
  function Values(src: seq<Entry>, des: seq<Entry>): seq<int>
    requires KeycodesInRange(des)
  {
    ValuesAfter(src, des, |des|)
  }

  /** The power key once every customer slot has been processed. */
  function PowerKey(src: seq<Entry>, des: seq<Entry>): int {
    PowerKeyAfter(src, des, |des|)
  }

  /** `struct mapping_table_t`: the table pushed to the driver. */
  class MappingTable {
    var identity: int
    var powerkey: int
    const value: array<int>

    /** The table as static storage starts: all zero. */
    constructor ()
      ensures identity == 0 && powerkey == 0
      ensures fresh(value) && value[..] == seq(KEYCODE_CNT, _ => 0)
    {
      identity, powerkey := 0, 0;
      value := new int[KEYCODE_CNT](_ => 0);
    }
  }

  /**
   * `generate_mapping_table(src, des, table)`: clear `table`, then map every
   * customer slot of `des` onto the first default slot of `src` with its
   * name. The new table depends on `src` and `des` only.
   */
  method GenerateMappingTable(src: array<Entry>, des: array<Entry>, table: MappingTable)
    requires src.Length == KEYCODE_CNT && des.Length == KEYCODE_CNT
    requires table.value.Length == KEYCODE_CNT
    requires KeycodesInRange(des[..])
    modifies table, table.value
    ensures table.identity == 0
    ensures table.value[..] == Values(src[..], des[..])
    ensures table.powerkey == PowerKey(src[..], des[..])
  {
    table.identity, table.powerkey := 0, 0;
    forall k | 0 <= k < table.value.Length {
      table.value[k] := 0;
    }
    for i := 0 to KEYCODE_CNT
      invariant table.identity == 0
      invariant table.value[..] == ValuesAfter(src[..], des[..], i)
      invariant table.powerkey == PowerKeyAfter(src[..], des[..], i)
    {
      var name := des[i].name;
      var j := 0;
      while j < KEYCODE_CNT
        invariant j <= KEYCODE_CNT
        invariant forall j' :: 0 <= j' < j ==> !IsMatch(src[j'], name)
      {
        if src[j].keycode == RESERVE_CODE {
          j := j + 1;
          continue;
        }
        if name == src[j].name {
          FirstMatchAt(src[..], name, j);
          table.value[des[i].keycode] := src[j].keycode;
          if table.powerkey == 0 && name == POWER_NAME {
            table.powerkey := des[i].keycode;
          }
          break;
        }
        j := j + 1;
      }
    }
  }

  // ---------------------------------------------------------------------
  // What the table holds

  /** Customer slot `i` writes table entry `k`: its keycode is `k` and its name has a match. */
  predicate Writes(src: seq<Entry>, des: seq<Entry>, i: nat, k: int)
    requires i < |des|
  {
    des[i].keycode == k && FirstMatch(src, des[i].name).Some?
  }

  /** Entry `k` is 0 exactly when no customer slot writes it. */
  lemma {:induction false} ValueZeroIffUnwritten(src: seq<Entry>, des: seq<Entry>, n: nat, k: nat)
    requires n <= |des| && KeycodesInRange(des) && k < KEYCODE_CNT
    ensures ValuesAfter(src, des, n)[k] == 0 <==> forall i :: 0 <= i < n ==> !Writes(src, des, i, k)
    decreases n
  {
    if n > 0 {
      ValueZeroIffUnwritten(src, des, n - 1, k);
      var fm := FirstMatch(src, des[n - 1].name);
      if fm.Some? {
        var v := ValuesAfter(src, des, n - 1);
        assert ValuesAfter(src, des, n) == v[des[n - 1].keycode := src[fm.value].keycode];
        if des[n - 1].keycode == k {
          assert src[fm.value].keycode != 0 && Writes(src, des, n - 1, k);
        } else {
          assert !Writes(src, des, n - 1, k);
        }
      } else {
        assert !Writes(src, des, n - 1, k);
      }
    }
  }

  /**
   * Entry `k` holds the keycode of the first default match of the last
   * customer slot that writes it.
   */
  lemma {:induction false} LastWriterWins(src: seq<Entry>, des: seq<Entry>, n: nat, k: nat, i: nat)
    requires n <= |des| && KeycodesInRange(des) && k < KEYCODE_CNT
    requires i < n && Writes(src, des, i, k)
    requires forall i' :: i < i' < n ==> !Writes(src, des, i', k)
    ensures ValuesAfter(src, des, n)[k] == src[FirstMatch(src, des[i].name).value].keycode
    decreases n
  {
    if i < n - 1 {
      assert !Writes(src, des, n - 1, k);
      LastWriterWins(src, des, n - 1, k, i);
    }
  }

  /**
   * For a dense customer map, entry k (k > 0) is the keycode of the first
   * default slot named like customer slot k, or 0 when slot k is unset or
   * its name has no match.
   */
  lemma DenseSlotValue(src: seq<Entry>, des: seq<Entry>, k: nat)
    requires |des| == KEYCODE_CNT && Dense(des) && KeycodesInRange(des)
    requires 0 < k < KEYCODE_CNT
    ensures Values(src, des)[k] ==
              if des[k].keycode == k && FirstMatch(src, des[k].name).Some?
              then src[FirstMatch(src, des[k].name).value].keycode
              else 0
  {
    assert forall i :: 0 <= i < |des| && i != k ==> !Writes(src, des, i, k);
    if Writes(src, des, k, k) {
      LastWriterWins(src, des, |des|, k, k);
    } else {
      ValueZeroIffUnwritten(src, des, |des|, k);
    }
  }

  /**
   * In a dense default map the first match is also the match with the
   * smallest keycode, and is never a reserved slot.
   */
  lemma FirstMatchSmallestKeycode(src: seq<Entry>, name: string)
    requires Dense(src)
    requires FirstMatch(src, name).Some?
    ensures var j := FirstMatch(src, name).value;
            && src[j].keycode == j != RESERVE_CODE
            && forall j' :: 0 <= j' < |src| && IsMatch(src[j'], name) ==> j <= src[j'].keycode
  {
  }

  // ---------------------------------------------------------------------
  // The power key

  /** Customer slot `i` is named "POWER" and has a keycode other than 0. */
  predicate IsPowerSlot(des: seq<Entry>, i: nat)
    requires i < |des|
  {
    des[i].name == POWER_NAME && des[i].keycode != 0
  }

  /**
   * The power key is 0 when the default map has no "POWER" key or no
   * customer slot named "POWER" has a keycode other than 0; otherwise it is
   * the keycode of the first such customer slot, and later ones do not
   * overwrite it.
   */
  lemma {:induction false} PowerKeyCharacterised(src: seq<Entry>, des: seq<Entry>, n: nat)
    requires n <= |des|
    ensures FirstMatch(src, POWER_NAME).None? ==> PowerKeyAfter(src, des, n) == 0
    ensures (forall i :: 0 <= i < n ==> !IsPowerSlot(des, i)) ==> PowerKeyAfter(src, des, n) == 0
    ensures forall i :: 0 <= i < n && IsPowerSlot(des, i) && FirstMatch(src, POWER_NAME).Some?
                        && (forall i' :: 0 <= i' < i ==> !IsPowerSlot(des, i'))
                        ==> PowerKeyAfter(src, des, n) == des[i].keycode
    decreases n
  {
    if n > 0 {
      PowerKeyCharacterised(src, des, n - 1);
      if forall i :: 0 <= i < n ==> !IsPowerSlot(des, i) {
        assert !IsPowerSlot(des, n - 1);
      }
    }
  }

  // ---------------------------------------------------------------------
  // Tables built from parsed layouts

  /**
   * Entry 0, for a dense customer map whose unset slots are blank and a
   * default map with no match for the empty name: only customer slot 0 can
   * write it, so it is that slot's first-match keycode, or 0.
   */
  lemma SlotZeroValue(src: seq<Entry>, des: seq<Entry>)
    requires |des| == KEYCODE_CNT && Dense(des) && UnsetBlank(des) && KeycodesInRange(des)
    requires FirstMatch(src, "").None?
    ensures Values(src, des)[0] ==
              if FirstMatch(src, des[0].name).Some? then src[FirstMatch(src, des[0].name).value].keycode else 0
  {
    forall i | 0 < i < |des| ensures !Writes(src, des, i, 0) {
      if des[i].keycode == 0 {
        assert des[i].name == "";
      }
    }
    if Writes(src, des, 0, 0) {
      LastWriterWins(src, des, |des|, 0, 0);
    } else {
      ValueZeroIffUnwritten(src, des, |des|, 0);
    }
  }

  /** In a default map parsed into the reserved map, nothing matches the empty name. */
  lemma ParsedDefaultNoEmptyMatch(lines: seq<string>)
    ensures FirstMatch(ApplyLines(ReservedMap(), lines), "").None?
  {
    ParsedNamesNonEmpty(lines);
  }

  /**
   * For a default layout parsed into the reserved map and a customer layout
   * parsed into the zero-filled map, table entry k is the smallest
   * default keycode whose name equals customer slot k's name, or 0 when
   * customer slot k was never set or its name is not in the default layout.
   */
  lemma ParsedLayoutsValue(defaultLines: seq<string>, customerLines: seq<string>, k: nat)
    requires k < KEYCODE_CNT
    ensures var src := ApplyLines(ReservedMap(), defaultLines);
            var des := ApplyLines(ZeroMap(), customerLines);
            && KeycodesInRange(des)
            && Values(src, des)[k] ==
                 if des[k].keycode == k && FirstMatch(src, des[k].name).Some?
                 then FirstMatch(src, des[k].name).value
                 else 0
  {
    var src := ApplyLines(ReservedMap(), defaultLines);
    var des := ApplyLines(ZeroMap(), customerLines);
    InitialMapsWellFormed();
    ApplyLinesWellFormed(ReservedMap(), defaultLines);
    ApplyLinesWellFormed(ZeroMap(), customerLines);
    if k == 0 {
      ApplyLinesKeepsUnsetBlank(ZeroMap(), customerLines);
      ParsedDefaultNoEmptyMatch(defaultLines);
      SlotZeroValue(src, des);
    } else {
      DenseSlotValue(src, des, k);
    }
    if des[k].keycode == k && FirstMatch(src, des[k].name).Some? {
      FirstMatchSmallestKeycode(src, des[k].name);
    }
  }

  /**
   * The same layout parsed as default (into the reserved map) and as
   * customer (into the zero-filled map) maps every set slot k > 0 to itself
   * when no lower default slot carries the same name.
   */
  lemma ParsedSameLayoutIsIdentity(lines: seq<string>, k: nat)
    requires 0 < k < KEYCODE_CNT
    ensures var src := ApplyLines(ReservedMap(), lines);
            var des := ApplyLines(ZeroMap(), lines);
            && KeycodesInRange(des)
            && (des[k].keycode == k && (forall j :: 0 <= j < k ==> !IsMatch(src[j], des[k].name))
                ==> Values(src, des)[k] == k)
  {
    var src := ApplyLines(ReservedMap(), lines);
    var des := ApplyLines(ZeroMap(), lines);
    InitialMapsWellFormed();
    ApplyLinesWellFormed(ReservedMap(), lines);
    ApplyLinesWellFormed(ZeroMap(), lines);
    if des[k].keycode == k && (forall j :: 0 <= j < k ==> !IsMatch(src[j], des[k].name)) {
      ParsesAgreeOnSetSlots(ReservedMap(), ZeroMap(), lines, k);
      assert src[k] == des[k];
      FirstMatchAt(src, des[k].name, k);
      DenseSlotValue(src, des, k);
    }
  }
}
