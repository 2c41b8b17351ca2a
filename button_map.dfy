/** The `BUTTON_MAP` constant that translates Android key codes to Godot
    button indices. The three revisions that use key codes declare the same
    nine entries in the same order. Kotlin's `mapOf` keeps insertion order
    when iterated, so the table is an ordered list of (keyCode, index) pairs
    and `BUTTON_MAP[keyCode]` is a search of that list. */
module ButtonMap {
  import opened Platform

  /** The entries of `BUTTON_MAP`, in declaration order. */
  const BUTTON_ENTRIES: seq<(int, int)> := [
    (KEYCODE_BUTTON_L1, 4),
    (KEYCODE_BUTTON_L2, 6),
    (KEYCODE_BUTTON_Z, 16),
    (KEYCODE_DPAD_UP, 11),
    (KEYCODE_DPAD_DOWN, 12),
    (KEYCODE_DPAD_LEFT, 13),
    (KEYCODE_DPAD_RIGHT, 14),
    (KEYCODE_BUTTON_THUMBL, 10),
    (KEYCODE_BUTTON_SELECT, 6)
  ]

  /** The key codes of an entry list. */
  function Keys(entries: seq<(int, int)>): (ks: seq<int>)
    ensures |ks| == |entries|
    ensures forall i :: 0 <= i < |entries| ==> ks[i] == entries[i].0
  {
    if entries == [] then [] else [entries[0].0] + Keys(entries[1..])
  }

  /** The Godot indices of an entry list, in order. */
  function Values(entries: seq<(int, int)>): (vs: seq<int>)
    ensures |vs| == |entries|
    ensures forall i :: 0 <= i < |entries| ==> vs[i] == entries[i].1
  {
    if entries == [] then [] else [entries[0].1] + Values(entries[1..])
  }

  /** No key code occurs twice. */
  predicate DistinctKeys(entries: seq<(int, int)>) {
    forall i, j :: 0 <= i < j < |entries| ==> entries[i].0 != entries[j].0
  }

  /** The Godot indices `BUTTON_MAP` can produce. */
  const BUTTON_INDICES: set<int> := {4, 6, 16, 11, 12, 13, 14, 10}

  /** The position of the first entry with the given key code, or -1. */
  function IndexOf(entries: seq<(int, int)>, keyCode: int): (i: int)
    ensures -1 <= i < |entries|
    ensures i >= 0 ==> entries[i].0 == keyCode
    ensures forall j :: 0 <= j < |entries| && (i < 0 || j < i) ==> entries[j].0 != keyCode
  {
    if entries == [] then -1
    else if entries[0].0 == keyCode then 0
    else
      var i := IndexOf(entries[1..], keyCode);
      if i < 0 then -1 else i + 1
  }

  /** `BUTTON_MAP[keyCode]`: the Godot index of a key code, or null when the
      key is not mapped. */
  function Lookup(keyCode: int): (r: Option<int>)
    ensures r.Some? ==> r.value in BUTTON_INDICES
  {
    var i := IndexOf(BUTTON_ENTRIES, keyCode);
    if i < 0 then None else Some(BUTTON_ENTRIES[i].1)
  }

  /** A key code is mapped exactly when it is one of the table's keys. */
  lemma LookupMapped(keyCode: int)
    ensures Lookup(keyCode).Some? <==> keyCode in Keys(BUTTON_ENTRIES)
  {
    var ks := Keys(BUTTON_ENTRIES);
    var i := IndexOf(BUTTON_ENTRIES, keyCode);
    if i >= 0 {
      assert ks[i] == keyCode;
    }
  }

  /** The keys are distinct, so a lookup of an entry's key yields that
      entry's index. */
  lemma LookupEntry(i: int)
    requires 0 <= i < |BUTTON_ENTRIES|
    ensures Lookup(BUTTON_ENTRIES[i].0) == Some(BUTTON_ENTRIES[i].1)
  {
    ButtonMapKeysDistinct();
    var j := IndexOf(BUTTON_ENTRIES, BUTTON_ENTRIES[i].0);
    assert 0 <= j <= i;
    assert j == i;
  }

  /** The table has nine distinct keys. */
  lemma ButtonMapKeysDistinct()
    ensures |BUTTON_ENTRIES| == 9 && DistinctKeys(BUTTON_ENTRIES)
  {
    var ks := Keys(BUTTON_ENTRIES);
    assert ks == [102, 104, 101, 19, 20, 21, 22, 106, 109];
    forall i, j | 0 <= i < j < 9 ensures BUTTON_ENTRIES[i].0 != BUTTON_ENTRIES[j].0 {
      assert ks[i] != ks[j];
    }
  }

  /** The indices of the table are exactly BUTTON_INDICES. */
  lemma ButtonMapIndices()
    ensures forall v :: v in BUTTON_INDICES <==> v in Values(BUTTON_ENTRIES)
  {
    assert Values(BUTTON_ENTRIES) == [4, 6, 16, 11, 12, 13, 14, 10, 6];
  }

  /** The mapping itself, key by key. */
  lemma ButtonMapValues()
    ensures Lookup(KEYCODE_BUTTON_L1) == Some(4)
    ensures Lookup(KEYCODE_BUTTON_L2) == Some(6)
    ensures Lookup(KEYCODE_BUTTON_Z) == Some(16)
    ensures Lookup(KEYCODE_DPAD_UP) == Some(11)
    ensures Lookup(KEYCODE_DPAD_DOWN) == Some(12)
    ensures Lookup(KEYCODE_DPAD_LEFT) == Some(13)
    ensures Lookup(KEYCODE_DPAD_RIGHT) == Some(14)
    ensures Lookup(KEYCODE_BUTTON_THUMBL) == Some(10)
    ensures Lookup(KEYCODE_BUTTON_SELECT) == Some(6)
  {
    LookupEntry(0); LookupEntry(1); LookupEntry(2);
    LookupEntry(3); LookupEntry(4); LookupEntry(5);
    LookupEntry(6); LookupEntry(7); LookupEntry(8);
  }

  /** Every other key code is unmapped: `BUTTON_MAP[keyCode]` is null. */
  lemma UnmappedKeys(keyCode: int)
    requires keyCode !in {KEYCODE_BUTTON_L1, KEYCODE_BUTTON_L2, KEYCODE_BUTTON_Z,
                          KEYCODE_DPAD_UP, KEYCODE_DPAD_DOWN, KEYCODE_DPAD_LEFT,
                          KEYCODE_DPAD_RIGHT, KEYCODE_BUTTON_THUMBL, KEYCODE_BUTTON_SELECT}
    ensures Lookup(keyCode) == None
  {
    var i := IndexOf(BUTTON_ENTRIES, keyCode);
    assert i < 0;
  }

  /** Entries 1 (ZL) and 8 (Minus) are the only two with the same index. */
  lemma OnlySharedIndex()
    ensures forall i, j :: 0 <= i < j < |BUTTON_ENTRIES| && BUTTON_ENTRIES[i].1 == BUTTON_ENTRIES[j].1
              ==> i == 1 && j == 8
  {
    var vs := Values(BUTTON_ENTRIES);
    assert vs == [4, 6, 16, 11, 12, 13, 14, 10, 6];
    forall i, j | 0 <= i < j < |BUTTON_ENTRIES| && BUTTON_ENTRIES[i].1 == BUTTON_ENTRIES[j].1
      ensures i == 1 && j == 8
    {
      assert vs[i] == vs[j];
    }
  }

  /** ZL and Minus are distinct keys that share index 6, and they are the
      only two keys that share an index. */
  lemma SharedIndexSix(k1: int, k2: int)
    requires k1 != k2 && Lookup(k1).Some? && Lookup(k1) == Lookup(k2)
    ensures {k1, k2} == {KEYCODE_BUTTON_L2, KEYCODE_BUTTON_SELECT} && Lookup(k1) == Some(6)
  {
    var e := BUTTON_ENTRIES;
    var i1, i2 := IndexOf(e, k1), IndexOf(e, k2);
    assert i1 != i2 && e[i1].1 == e[i2].1;
    OnlySharedIndex();
    assert e[1] == (KEYCODE_BUTTON_L2, 6) && e[8] == (KEYCODE_BUTTON_SELECT, 6);
  }
}
