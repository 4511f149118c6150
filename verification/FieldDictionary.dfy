/**
 The per-lobe field dictionary: an append-only list of names whose positions
 are the 16-bit ids stored in records, with the inverse map kept beside it.
 */
module FieldDictionary {
  import opened Bytes

  type U16 = n: int | 0 <= n < 0x1_0000

  const LIMIT: nat := 0x1_0000

  datatype Dict = Dict(names: seq<string>, ids: map<string, U16>)

  const NO_NAMES := Dict([], map[])

  /** `usize as u16`. */
  function Truncate(n: nat): U16 {
    n % 0x1_0000
  }

  function NameOf(d: Dict, id: U16): Option<string> {
    if id < |d.names| then Some(d.names[id]) else None
  }

  /** The dictionary after `get_or_create_id(name)`. */
  function Grown(d: Dict, name: string): Dict {
    if name in d.ids then d else Dict(d.names + [name], d.ids[name := Truncate(|d.names|)])
  }

  function IdOf(d: Dict, name: string): U16 {
    if name in d.ids then d.ids[name] else Truncate(|d.names|)
  }

  predicate Distinct(names: seq<string>) {
    forall i, j | 0 <= i < j < |names| :: names[i] != names[j]
  }

  /** Within its limit, names and ids are inverse to each other. */
  predicate Consistent(d: Dict) {
    && |d.names| <= LIMIT
    && Distinct(d.names)
    && (forall n | n in d.ids :: d.ids[n] < |d.names| && d.names[d.ids[n]] == n)
    && (forall i | 0 <= i < |d.names| :: d.names[i] in d.ids)
  }

  /** `from_names`: later duplicates win, positions beyond the limit wrap. */
  function FromNames(names: seq<string>): (d: Dict)
    ensures d.names == names
  {
    if names == [] then NO_NAMES
    else Dict(names, FromNames(names[..|names| - 1]).ids[names[|names| - 1] := Truncate(|names| - 1)])
  }

  lemma {:induction false} FromNamesIds(names: seq<string>)
    requires Distinct(names) && |names| <= LIMIT
    ensures forall n :: n in FromNames(names).ids <==> n in names
    ensures forall i | 0 <= i < |names| :: FromNames(names).ids[names[i]] == i
  {
    if names != [] {
      var front, last := names[..|names| - 1], names[|names| - 1];
      FromNamesIds(front);
      var ids := FromNames(front).ids;
      assert FromNames(names).ids == ids[last := |names| - 1];
      assert names == front + [last];
      forall i | 0 <= i < |names| ensures FromNames(names).ids[names[i]] == i {
        if i < |front| {
          assert names[i] == front[i] && names[i] != last;
        }
      }
    }
  }

  /** Persisting the names and reading them back gives the dictionary back. */
  lemma NamesRoundTrip(d: Dict)
    requires Consistent(d)
    ensures FromNames(d.names) == d
  {
    var r := FromNames(d.names);
    FromNamesIds(d.names);
    forall n ensures n in r.ids <==> n in d.ids {
      if n in d.ids { assert d.names[d.ids[n]] == n; }
    }
    forall n | n in d.ids ensures r.ids[n] == d.ids[n] {
      assert r.ids[d.names[d.ids[n]]] == d.ids[n];
    }
    assert r.ids == d.ids;
  }

  lemma FromNamesConsistent(names: seq<string>)
    requires Distinct(names) && |names| <= LIMIT
    ensures Consistent(FromNames(names))
  {
    FromNamesIds(names);
    forall n | n in FromNames(names).ids
      ensures FromNames(names).ids[n] < |names| && names[FromNames(names).ids[n]] == n
    {
      var i :| 0 <= i < |names| && names[i] == n;
    }
  }

  /** Names are only ever appended, and a known or still fitting name keeps the dictionary consistent. */
  lemma GrownKeeps(d: Dict, name: string)
    requires Consistent(d) && (name in d.ids || |d.names| < LIMIT)
    ensures Consistent(Grown(d, name)) && d.names <= Grown(d, name).names
    ensures NameOf(Grown(d, name), IdOf(d, name)) == Some(name)
  {
    var g := Grown(d, name);
    if name !in d.ids {
      assert forall i | 0 <= i < |d.names| :: g.names[i] == d.names[i] && d.names[i] in d.ids;
      assert g.names[|d.names|] == name;
    }
  }

  /**
   A new name can be read back by its id exactly while ids last: the name number
   65537 gets id 0 again and reads as the first name.
   */
  lemma NewNameReadsBackIff(d: Dict, name: string)
    requires Consistent(d) && name !in d.ids
    ensures NameOf(Grown(d, name), IdOf(d, name)) == Some(name) <==> |d.names| < LIMIT
  {
    if |d.names| < LIMIT {
      GrownKeeps(d, name);
    } else {
      assert Grown(d, name).names[0] == d.names[0] && d.names[0] in d.ids;
    }
  }

  class FieldDict {
    var nameToId: map<string, U16>
    var idToName: seq<string>

    function View(): Dict
      reads this
    {
      Dict(idToName, nameToId)
    }

    constructor ()
      ensures View() == NO_NAMES
    {
      nameToId, idToName := map[], [];
    }

    /** Rebuild the inverse map from the persisted names. */
    constructor FromPersisted(names: seq<string>)
      ensures View() == FromNames(names)
    {
      nameToId, idToName := map[], names;
      new;
      for i := 0 to |names|
        invariant idToName == names && nameToId == FromNames(names[..i]).ids
      {
        assert names[..i + 1][..i] == names[..i];
        nameToId := nameToId[names[i] := Truncate(i)];
      }
      assert names[..|names|] == names;
    }

    method GetOrCreateId(name: string) returns (id: U16, created: bool)
      modifies this
      ensures View() == Grown(old(View()), name)
      ensures id == IdOf(old(View()), name)
      ensures created <==> name !in old(nameToId)
    {
      if name in nameToId {
        return nameToId[name], false;
      }
      id := Truncate(|idToName|);
      idToName := idToName + [name];
      nameToId := nameToId[name := id];
      created := true;
    }
  }
}
