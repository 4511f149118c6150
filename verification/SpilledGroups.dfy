/**
 Reading a spilled ghost's groups from the rollup keyspace: the groups the in-RAM
 map would give, as long as the group keys fit a rollup key.
 */
module SpilledGroups {
  import opened Aggregates
  import opened Bytes
  import opened FieldDictionary
  import opened GroupKeys
  import opened Precomputed

  const ROLLUP: seq<Byte> := [0xFF, 0xF9]
  const LONGEST: nat := 0xFFFF

  // ─── Rollup keys ───────────────────────────────────────────────────────────

  /** What of a group key fits behind its 16-bit length. */
  function Shortened(gk: Key): (k: Key)
    ensures |k| <= LONGEST && (k == gk <==> |gk| <= LONGEST)
  {
    if |gk| <= LONGEST then gk else gk[..LONGEST]
  }

  function GhostPrefix(id: U16): seq<Byte> {
    ROLLUP + BigEndian(id, 2)
  }

  function RollupKey(id: U16, gk: Key): seq<Byte> {
    GhostPrefix(id) + (BigEndian(|Shortened(gk)|, 2) + Shortened(gk))
  }

  /** The group key embedded in a rollup key; `utf8` tells which bytes are text. */
  function GroupOf(utf8: Key -> bool, key: seq<Byte>): Option<Key> {
    if |key| < 6 then None
    else
      var end := 6 + FromBigEndian(key[4..6]);
      if end <= |key| && utf8(key[6..end]) then Some(key[6..end]) else None
  }

  lemma KeyParts(id: U16, gk: Key)
    ensures var key := RollupKey(id, gk);
            && |key| == 6 + |Shortened(gk)| && GhostPrefix(id) <= key
            && FromBigEndian(key[4..6]) == |Shortened(gk)| && key[6..] == Shortened(gk)
  {
    var n := |Shortened(gk)|;
    var key := RollupKey(id, gk);
    assert key[4..6] == BigEndian(n, 2);
    assert Pow256(1) == 256 && Pow256(2) == 65536;
    BigEndianRoundTrip(n, 2);
  }

  /** A group key reads back from its rollup key exactly when it has at most 65535 bytes. */
  lemma GroupReadsBackIff(utf8: Key -> bool, id: U16, gk: Key)
    requires utf8(gk)
    ensures GroupOf(utf8, RollupKey(id, gk)) == Some(gk) <==> |gk| <= LONGEST
  {
    KeyParts(id, gk);
    var key := RollupKey(id, gk);
    assert key[6..|key|] == key[6..];
  }

  /** No rollup key starts another group's, unless the two group keys are cut to the same bytes. */
  lemma RollupKeyStartsIff(id: U16, a: Key, b: Key)
    ensures RollupKey(id, a) <= RollupKey(id, b) <==> Shortened(a) == Shortened(b)
  {
    var x, y := RollupKey(id, a), RollupKey(id, b);
    KeyParts(id, a);
    KeyParts(id, b);
    if x <= y {
      assert x[4..6] == y[4..6];
      assert x == y;
    }
  }

  // ─── The reader ────────────────────────────────────────────────────────────

  /** One folded rollup: its key and what its value decodes to. */
  type Rollup = (seq<Byte>, Option<State>)

  /** The whole ghost, or the one group when every group field is pinned. */
  function ScanPrefix(id: U16, pins: Pins): seq<Byte> {
    if pins != [] && forall i | 0 <= i < |pins| :: pins[i].Some? then
      RollupKey(id, Encode(seq(|pins|, i requires 0 <= i < |pins| => pins[i].value)))
    else GhostPrefix(id)
  }

  /** The entry is scanned, names a selected group and decodes. */
  predicate Yields(utf8: Key -> bool, id: U16, pins: Pins, e: Rollup, gk: Key) {
    ScanPrefix(id, pins) <= e.0 && GroupOf(utf8, e.0) == Some(gk) && Pinned(Decode(gk), pins) && e.1.Some?
  }

  function Collected(utf8: Key -> bool, id: U16, pins: Pins, entries: seq<Rollup>): GroupMap {
    if entries == [] then map[]
    else
      var front, e := Collected(utf8, id, pins, entries[..|entries| - 1]), entries[|entries| - 1];
      var gk := GroupOf(utf8, e.0);
      if gk.Some? && Yields(utf8, id, pins, e, gk.value) then front[gk.value := e.1.value] else front
  }

  /** Groups that net to no record are not groups. */
  function Live(groups: GroupMap): GroupMap {
    map gk | gk in groups && groups[gk].count > 0 :: groups[gk]
  }

  method ReadRollups(utf8: Key -> bool, id: U16, entries: seq<Rollup>, pins: Pins) returns (out: GroupMap)
    ensures out == Live(Collected(utf8, id, pins, entries))
  {
    var wild := forall i | 0 <= i < |pins| :: pins[i] == None;
    var prefix := GhostPrefix(id);
    if !wild && forall i | 0 <= i < |pins| :: pins[i].Some? {
      prefix := RollupKey(id, Encode(seq(|pins|, i requires 0 <= i < |pins| => pins[i].value)));
    }
    assert prefix == ScanPrefix(id, pins);
    out := map[];
    for i := 0 to |entries|
      invariant out == Collected(utf8, id, pins, entries[..i])
    {
      assert entries[..i + 1][..i] == entries[..i];
      var key, value := entries[i].0, entries[i].1;
      if !(prefix <= key) {
        continue;
      }
      var gk := GroupOf(utf8, key);
      if gk == None {
        continue;
      }
      if !wild && !Pinned(Decode(gk.value), pins) {
        continue;
      }
      if value.Some? {
        out := out[gk.value := value.value];
      }
    }
    assert entries[..|entries|] == entries;
    out := map gk | gk in out && out[gk].count > 0 :: out[gk];
  }

  // ─── Spilled or not, the same groups ───────────────────────────────────────

  /** The keyspace holds each group's folded state under its rollup key, and nothing else of this ghost. */
  predicate Stores(id: U16, entries: seq<Rollup>, groups: GroupMap) {
    && (forall gk | gk in groups :: (RollupKey(id, gk), Some(groups[gk])) in entries)
    && (forall e | e in entries && GhostPrefix(id) <= e.0 ::
          exists gk | gk in groups :: e == (RollupKey(id, gk), Some(groups[gk])))
  }

  /** Keys a ghost writes, each short enough for a rollup key. */
  predicate Storable(utf8: Key -> bool, groups: GroupMap, n: nat) {
    WellKeyed(groups, n) && forall gk | gk in groups :: |gk| <= LONGEST && utf8(gk)
  }

  lemma {:induction false} CollectedAt(utf8: Key -> bool, id: U16, pins: Pins, entries: seq<Rollup>, gk: Key, v: State)
    requires forall e | e in entries && Yields(utf8, id, pins, e, gk) :: e.1 == Some(v)
    ensures At(Collected(utf8, id, pins, entries), gk)
            == if exists e | e in entries :: Yields(utf8, id, pins, e, gk) then Some(v) else None
  {
    if entries != [] {
      var front, last := entries[..|entries| - 1], entries[|entries| - 1];
      assert entries == front + [last];
      CollectedAt(utf8, id, pins, front, gk, v);
    }
  }

  lemma ScanPrefixIsGhosts(id: U16, pins: Pins)
    ensures GhostPrefix(id) <= ScanPrefix(id, pins)
  {
  }

  /** A group's entry is under the scanned prefix when the group is selected. */
  lemma SelectedIsScanned(id: U16, pins: Pins, gk: Key)
    requires |Decode(gk)| == |pins| && Encode(Decode(gk)) == gk && Pinned(Decode(gk), pins)
    ensures ScanPrefix(id, pins) <= RollupKey(id, gk)
  {
    KeyParts(id, gk);
    if pins != [] && forall i | 0 <= i < |pins| :: pins[i].Some? {
      var parts := seq(|pins|, i requires 0 <= i < |pins| => pins[i].value);
      assert parts == Decode(gk);
      RollupKeyStartsIff(id, Encode(parts), gk);
    }
  }

  lemma YieldsItsGroup(utf8: Key -> bool, id: U16, pins: Pins, entries: seq<Rollup>, groups: GroupMap, e: Rollup,
                       gk: Key)
    requires Stores(id, entries, groups) && Storable(utf8, groups, |pins|)
    requires e in entries && Yields(utf8, id, pins, e, gk)
    ensures gk in groups && e.1 == Some(groups[gk])
  {
    ScanPrefixIsGhosts(id, pins);
    var g :| g in groups && e == (RollupKey(id, g), Some(groups[g]));
    GroupReadsBackIff(utf8, id, g);
  }

  lemma CollectedIsSelected(utf8: Key -> bool, id: U16, pins: Pins, entries: seq<Rollup>, groups: GroupMap, gk: Key)
    requires Stores(id, entries, groups) && Storable(utf8, groups, |pins|)
    ensures At(Collected(utf8, id, pins, entries), gk) == At(SelectGroups(groups, pins), gk)
  {
    var v := if gk in groups then groups[gk] else EMPTY_STATE;
    forall e | e in entries && Yields(utf8, id, pins, e, gk) ensures gk in groups && e.1 == Some(v) {
      YieldsItsGroup(utf8, id, pins, entries, groups, e, gk);
    }
    CollectedAt(utf8, id, pins, entries, gk, v);
    if gk in groups && Pinned(Decode(gk), pins) {
      SelectedIsScanned(id, pins, gk);
      GroupReadsBackIff(utf8, id, gk);
      assert Yields(utf8, id, pins, (RollupKey(id, gk), Some(groups[gk])), gk);
    }
  }

  /**
   For every set of storable groups, every listing of the keyspace and all pins:
   the spilled read is the selection the in-RAM reader makes from the live groups.
   */
  lemma SpilledReadsAsInRam(utf8: Key -> bool, id: U16, pins: Pins, entries: seq<Rollup>, groups: GroupMap)
    requires Stores(id, entries, groups) && Storable(utf8, groups, |pins|)
    ensures Live(Collected(utf8, id, pins, entries)) == SelectGroups(Live(groups), pins)
  {
    forall gk ensures At(Collected(utf8, id, pins, entries), gk) == At(SelectGroups(groups, pins), gk) {
      CollectedIsSelected(utf8, id, pins, entries, groups, gk);
    }
    SameGroups(Collected(utf8, id, pins, entries), SelectGroups(groups, pins));
  }

  lemma {:induction false} CollectedAreShort(utf8: Key -> bool, id: U16, pins: Pins, entries: seq<Rollup>, gk: Key)
    requires gk in Collected(utf8, id, pins, entries)
    ensures |gk| <= LONGEST
  {
    var front, e := entries[..|entries| - 1], entries[|entries| - 1];
    if gk in Collected(utf8, id, pins, front) {
      CollectedAreShort(utf8, id, pins, front, gk);
    } else {
      assert Pow256(1) == 256 && Pow256(2) == 65536;
    }
  }

  /** A live group whose key is longer is in no spilled read, whatever the keyspace holds. */
  lemma LongGroupIsMissing(utf8: Key -> bool, id: U16, pins: Pins, entries: seq<Rollup>, groups: GroupMap, gk: Key)
    requires gk in SelectGroups(Live(groups), pins) && |gk| > LONGEST
    ensures Live(Collected(utf8, id, pins, entries)) != SelectGroups(Live(groups), pins)
  {
    if gk in Collected(utf8, id, pins, entries) { CollectedAreShort(utf8, id, pins, entries, gk); }
  }

  predicate ReadsAsInRam(utf8: Key -> bool, id: U16, pins: Pins, entries: seq<Rollup>, groups: GroupMap) {
    Live(Collected(utf8, id, pins, entries)) == SelectGroups(groups, pins)
  }

  function AnyGroup(n: nat): (pins: Pins)
    ensures |pins| == n && forall i | 0 <= i < n :: pins[i] == None
  {
    seq(n, _ => None)
  }

  lemma WholeReadMisses(utf8: Key -> bool, id: U16, entries: seq<Rollup>, groups: GroupMap, n: nat, gk: Key)
    requires Live(groups) == groups && gk in groups && |gk| > LONGEST
    ensures !ReadsAsInRam(utf8, id, AnyGroup(n), entries, groups)
  {
    NoPins(groups, AnyGroup(n));
    LongGroupIsMissing(utf8, id, AnyGroup(n), entries, groups, gk);
  }

  /** Every read of a spilled ghost is the in-RAM read exactly when all its group keys have at most 65535 bytes. */
  lemma SpilledExactIff(utf8: Key -> bool, id: U16, entries: seq<Rollup>, groups: GroupMap, n: nat)
    requires Stores(id, entries, groups) && WellKeyed(groups, n) && Live(groups) == groups
    requires forall gk | gk in groups :: utf8(gk)
    ensures (forall pins: Pins | |pins| == n :: ReadsAsInRam(utf8, id, pins, entries, groups))
            <==> forall gk | gk in groups :: |gk| <= LONGEST
  {
    if gk :| gk in groups && |gk| > LONGEST {
      WholeReadMisses(utf8, id, entries, groups, n, gk);
    } else {
      forall pins: Pins | |pins| == n ensures ReadsAsInRam(utf8, id, pins, entries, groups) {
        SpilledReadsAsInRam(utf8, id, pins, entries, groups);
      }
    }
  }
}
