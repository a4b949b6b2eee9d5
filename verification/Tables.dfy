/** The tables of Node: src/impl/pending-interest-table.cpp, registered-prefix-table.cpp, interest-filter-table.cpp. */
module Tables {
  import opened Bytes
  import opened Names
  import opened Matching
  import opened Pending
  import R = Registrations

  /** PendingInterestTable::Entry: what was expressed, and whether it has left the table. */
  class TableEntry {
    const info: Entry
    var isRemoved: bool

    constructor (info: Entry)
      ensures this.info == info && !isRemoved
    {
      this.info := info;
      isRemoved := false;
    }
  }

  function Infos(s: seq<TableEntry>): (r: seq<Entry>)
    ensures |r| == |s| && forall i :: 0 <= i < |s| ==> r[i] == s[i].info
  {
    seq(|s|, i requires 0 <= i < |s| => s[i].info)
  }

  function KeptEntries(s: seq<TableEntry>, p: Entry -> bool): (r: seq<TableEntry>)
    ensures forall e :: e in r ==> e in s
  {
    if s == [] then [] else
      assert s == [s[0]] + s[1..];
      (if p(s[0].info) then [] else [s[0]]) + KeptEntries(s[1..], p)
  }

  function TakenEntries(s: seq<TableEntry>, p: Entry -> bool): (r: seq<TableEntry>)
    ensures forall e :: e in r ==> e in s
  {
    if s == [] then [] else
      assert s == [s[0]] + s[1..];
      TakenEntries(s[1..], p) + (if p(s[0].info) then [s[0]] else [])
  }

  lemma {:induction false} ExtractMembers(s: seq<TableEntry>, p: Entry -> bool)
    ensures forall e :: e in KeptEntries(s, p) <==> e in s && !p(e.info)
    ensures forall e :: e in TakenEntries(s, p) <==> e in s && p(e.info)
  {
    if s != [] {
      assert s == [s[0]] + s[1..];
      ExtractMembers(s[1..], p);
    }
  }

  lemma {:induction false} KeptInfos(s: seq<TableEntry>, p: Entry -> bool)
    ensures Infos(KeptEntries(s, p)) == Kept(Infos(s), p)
  {
    if s != [] {
      KeptInfos(s[1..], p);
      assert Infos(s)[1..] == Infos(s[1..]);
    }
  }

  lemma {:induction false} TakenInfos(s: seq<TableEntry>, p: Entry -> bool)
    ensures Infos(TakenEntries(s, p)) == Taken(Infos(s), p)
  {
    if s != [] {
      TakenInfos(s[1..], p);
      assert Infos(s)[1..] == Infos(s[1..]);
    }
  }

  predicate Distinct<T(==)>(s: seq<T>) { forall i, j :: 0 <= i < j < |s| ==> s[i] != s[j] }

  /** One step of the backward loops: the entry at `i` is examined and possibly erased. */
  lemma EraseStep(was: seq<TableEntry>, i: nat, p: Entry -> bool)
    requires i < |was| && Distinct(was)
    ensures var now := was[..i + 1] + KeptEntries(was[i + 1..], p);
            && now[i] == was[i]
            && was[i] !in now[..i] + now[i + 1..]
            && (was[..i] + KeptEntries(was[i..], p) == if p(was[i].info) then now[..i] + now[i + 1..] else now)
    ensures TakenEntries(was[i..], p) == TakenEntries(was[i + 1..], p) + if p(was[i].info) then [was[i]] else []
  {
    assert was[i..][1..] == was[i + 1..];
    assert forall k :: i + 1 <= k < |was| ==> was[k] != was[i];
  }

  class PendingInterestTable {
    var table: seq<TableEntry>
    var removeRequests: seq<nat>
    ghost var made: set<TableEntry>    // every entry that was ever added

    /** An entry is marked as removed exactly when it is not in the table. */
    ghost predicate Valid()
      reads this, made
    {
      && Distinct(table)
      && Distinct(removeRequests)
      && (forall e :: e in table ==> e in made)
      && (forall e :: e in made ==> (e.isRemoved <==> e !in table))
    }

    ghost function Contents(): seq<Entry>
      reads this`table
    {
      Infos(table)
    }

    ghost function Requests(): set<nat>
      reads this`removeRequests
    {
      set id | id in removeRequests
    }

    constructor ()
      ensures Valid() && table == [] && removeRequests == [] && made == {}
    {
      table, removeRequests, made := [], [], {};
    }

    /** add: a remove request that came first refuses the entry and is used up. */
    method Add(info: Entry) returns (r: TableEntry?)
      requires Valid()
      modifies this
      ensures Valid()
      ensures r == null <==> info.id in old(Requests())
      ensures r == null ==> Requests() == old(Requests()) - {info.id} && table == old(table) && made == old(made)
      ensures r != null ==> fresh(r) && r.info == info && table == old(table) + [r] && made == old(made) + {r}
      ensures r != null ==> Requests() == old(Requests())
    {
      for i := 0 to |removeRequests|
        invariant forall k :: 0 <= k < i ==> removeRequests[k] != info.id
        invariant removeRequests == old(removeRequests) && table == old(table) && made == old(made)
      {
        if removeRequests[i] == info.id {
          removeRequests := removeRequests[..i] + removeRequests[i + 1..];
          return null;
        }
      }
      r := new TableEntry(info);
      table := table + [r];
      made := made + {r};
    }

    /** Mark the entry as removed and erase it. */
    method EraseAt(i: nat)
      requires Valid() && i < |table|
      modifies this`table, table[i]
      ensures Valid() && table == old(table)[..i] + old(table)[i + 1..]
    {
      ghost var was := table;
      assert was == was[..i] + [was[i]] + was[i + 1..];
      table[i].isRemoved := true;
      table := table[..i] + table[i + 1..];
    }

    /** The backward loop of the extract and remove methods: the entries that meet the condition leave the table. */
    method Extract(p: Entry -> bool) returns (entries: seq<TableEntry>)
      requires Valid()
      modifies this`table, made
      ensures Valid()
      ensures table == KeptEntries(old(table), p) && entries == TakenEntries(old(table), p)
      ensures forall e :: e in table <==> e in old(table) && !p(e.info)
      ensures forall e :: e in entries <==> e in old(table) && p(e.info)
    {
      entries := [];
      ghost var was := table;
      for i := |table| downto 0
        invariant |table| >= i && table == was[..i] + KeptEntries(was[i..], p) && entries == TakenEntries(was[i..], p)
        invariant Valid()
      {
        EraseStep(was, i, p);
        assert table[i] == was[i];
        if p(table[i].info) {
          entries := entries + [table[i]];
          EraseAt(i);
        }
      }
      assert was[0..] == was && was[..0] == [];
      ExtractMembers(was, p);
    }

    method ExtractEntriesForExpressedInterest(d: Packet) returns (entries: seq<TableEntry>)
      requires Valid()
      modifies this`table, made
      ensures Valid() && Contents() == Kept(old(Contents()), WantsData(d))
      ensures entries == TakenEntries(old(table), WantsData(d)) && Infos(entries) == Taken(old(Contents()), WantsData(d))
      ensures table == KeptEntries(old(table), WantsData(d))
      ensures forall e :: e in entries <==> e in old(table) && Satisfies(e.info.selectors, d)
    {
      KeptInfos(table, WantsData(d));
      TakenInfos(table, WantsData(d));
      entries := Extract(WantsData(d));
    }

    method ExtractEntriesForNackInterest(encoding: Blob) returns (entries: seq<TableEntry>)
      requires Valid()
      modifies this`table, made
      ensures Valid() && Contents() == Kept(old(Contents()), WantsNack(encoding))
      ensures Infos(entries) == Taken(old(Contents()), WantsNack(encoding))
      ensures table == KeptEntries(old(table), WantsNack(encoding))
      ensures forall e :: e in entries <==> e in old(table) && e.info.onNack && e.info.encoding == encoding
    {
      KeptInfos(table, WantsNack(encoding));
      TakenInfos(table, WantsNack(encoding));
      entries := Extract(WantsNack(encoding));
    }

    /** removePendingInterest: every entry with the id leaves; if there is none, the request is kept for add. */
    method RemovePendingInterest(id: nat)
      requires Valid()
      modifies this`table, this`removeRequests, made
      ensures Valid() && Contents() == Kept(old(Contents()), HasId(id))
      ensures table == KeptEntries(old(table), HasId(id))
      ensures forall e :: e in table <==> e in old(table) && e.info.id != id
      ensures Requests() ==
                if exists e :: e in old(Contents()) && e.id == id then old(Requests()) else old(Requests()) + {id}
    {
      KeptInfos(table, HasId(id));
      TakenInfos(table, HasId(id));
      TakenSome(Contents(), id);
      var removed := Extract(HasId(id));
      assert |Infos(removed)| == |removed|;
      if |removed| == 0 {
        if id !in removeRequests { removeRequests := removeRequests + [id]; }
      }
    }

    /** removeEntry: the isRemoved flag answers at once for an entry that has left; otherwise search by identity. */
    method RemoveEntry(e: TableEntry) returns (r: bool)
      requires Valid() && e in made
      modifies this`table, e
      ensures Valid()
      ensures r <==> e in old(table)
      ensures !r ==> table == old(table)
      ensures r ==> exists i :: 0 <= i < |old(table)| && old(table)[i] == e && table == old(table)[..i] + old(table)[i + 1..]
    {
      if e.isRemoved { return false; }
      for i := 0 to |table|
        invariant table == old(table) && Valid() && e !in table[..i]
      {
        if table[i] == e {
          e.isRemoved := true;
          table := table[..i] + table[i + 1..];
          return true;
        }
      }
      return false;
    }
  }

  lemma {:induction false} TakenSome(s: seq<Entry>, id: nat)
    ensures Taken(s, HasId(id)) != [] <==> Has(s, id)
  {
    if s != [] {
      assert s == [s[0]] + s[1..];
      TakenSome(s[1..], id);
    }
  }

  // ----- Interest filters and registered prefixes -----

  /** InterestFilter::doesMatch. */
  method DoesMatch(f: R.Filter, name: Name, rx: R.Regex) returns (r: bool)
    ensures r == R.DoesMatch(f, name, rx)
    ensures r <==>
            && |f.prefix| <= |name|
            && (forall i :: 0 <= i < |f.prefix| ==> f.prefix[i].value == name[i].value)
            && (f.regex.Some? ==> rx(f.regex.value, name[|f.prefix|..]))
  {
    var matches := Match(f.prefix, name);
    return matches && (f.regex.None? || rx(f.regex.value, name[|f.prefix|..]));
  }

  lemma MatchedStep(fs: seq<R.Filter>, i: nat, r: seq<R.Filter>, name: Name, rx: R.Regex)
    requires i < |fs|
    ensures r + R.Matched(fs[i..], name, rx) ==
            (if R.DoesMatch(fs[i], name, rx) then r + [fs[i]] else r) + R.Matched(fs[i + 1..], name, rx)
  {
    assert fs[i..][1..] == fs[i + 1..];
    R.Assoc(r, [fs[i]], R.Matched(fs[i + 1..], name, rx));
    assert [] + R.Matched(fs[i + 1..], name, rx) == R.Matched(fs[i + 1..], name, rx);
  }

  class InterestFilterTable {
    var table: seq<R.Filter>

    constructor ()
      ensures table == []
    {
      table := [];
    }

    method SetInterestFilter(f: R.Filter)
      modifies this
      ensures table == old(table) + [f]
    {
      table := table + [f];
    }

    method UnsetInterestFilter(id: nat)
      modifies this
      ensures table == R.FiltersWithout(old(table), id)
      ensures forall f :: f in table <==> f in old(table) && f.id != id
    {
      R.FiltersWithoutMembers(table, id);
      ghost var was := table;
      for i := |table| downto 0
        invariant |table| >= i && table == was[..i] + R.FiltersWithout(was[i..], id)
      {
        FilterStep(was, i, id);
        if table[i].id == id { table := table[..i] + table[i + 1..]; }
      }
      assert was[0..] == was;
    }

    /** getMatchedFilters, with doesMatch for each filter. */
    method GetMatchedFilters(name: Name, rx: R.Regex) returns (r: seq<R.Filter>)
      ensures r == R.Matched(table, name, rx)
      ensures forall f :: f in r <==>
                && f in table && |f.prefix| <= |name|
                && (forall i :: 0 <= i < |f.prefix| ==> f.prefix[i].value == name[i].value)
                && (f.regex.Some? ==> rx(f.regex.value, name[|f.prefix|..]))
    {
      r := [];
      for i := 0 to |table|
        invariant R.Matched(table, name, rx) == r + R.Matched(table[i..], name, rx)
      {
        MatchedStep(table, i, r, name, rx);
        var matches := DoesMatch(table[i], name, rx);
        if matches { r := r + [table[i]]; }
      }
      R.MatchedMembers(table, name, rx);
    }
  }

  class RegisteredPrefixTable {
    const filters: InterestFilterTable
    var table: seq<R.Registered>
    var removeRequests: seq<nat>

    ghost function Requests(): set<nat>
      reads this`removeRequests
    {
      set id | id in removeRequests
    }

    constructor (filters: InterestFilterTable)
      ensures this.filters == filters && table == [] && removeRequests == []
    {
      this.filters := filters;
      table, removeRequests := [], [];
    }

    method Add(x: R.Registered) returns (added: bool)
      requires Distinct(removeRequests)
      modifies this
      ensures Distinct(removeRequests) && added == (x.id !in old(Requests()))
      ensures Requests() == old(Requests()) - {x.id}
      ensures table == if added then old(table) + [x] else old(table)
    {
      for i := 0 to |removeRequests|
        invariant forall k :: 0 <= k < i ==> removeRequests[k] != x.id
        invariant removeRequests == old(removeRequests) && table == old(table)
      {
        if removeRequests[i] == x.id {
          removeRequests := removeRequests[..i] + removeRequests[i + 1..];
          return false;
        }
      }
      table := table + [x];
      return true;
    }

    /** The loop of removeRegisteredPrefix: the entries with the id leave and take their filters with them. */
    method Erase(id: nat) returns (count: nat)
      modifies this`table, filters
      ensures table == R.RegisteredWithout(old(table), id)
      ensures filters.table == R.UnsetRelated(old(filters.table), old(table), id)
      ensures |table| <= |old(table)| && (count > 0 <==> |table| < |old(table)|)
    {
      count := 0;
      ghost var was := table;
      ghost var unset := R.UnsetRelated(filters.table, was, id);
      assert was[..|was|] == was;
      for i := |table| downto 0
        invariant |table| >= i && table == was[..i] + R.RegisteredWithout(was[i..], id)
        invariant unset == R.UnsetRelated(filters.table, was[..i], id)
        invariant |table| <= |was| && (count > 0 <==> |table| < |was|)
      {
        RegisteredStep(was, i, id);
        UnsetStep(filters.table, was, i, id);
        var x := table[i];
        assert x == was[i];
        if x.id == id {
          count := count + 1;
          if x.filterId > 0 { filters.UnsetInterestFilter(x.filterId); }
          table := table[..i] + table[i + 1..];
        }
      }
      assert was[0..] == was && was[..0] == [];
    }

    /** removeRegisteredPrefix: with no such entry, the request is kept for add. */
    method RemoveRegisteredPrefix(id: nat)
      requires Distinct(removeRequests)
      modifies this, filters
      ensures Distinct(removeRequests)
      ensures table == R.RegisteredWithout(old(table), id)
      ensures filters.table == R.UnsetRelated(old(filters.table), old(table), id)
      ensures forall x :: x in table <==> x in old(table) && x.id != id
      ensures forall f :: f in filters.table <==>
                f in old(filters.table) && forall x :: x in old(table) && x.id == id && x.filterId > 0 ==> x.filterId != f.id
      ensures Requests() == if exists x :: x in old(table) && x.id == id then old(Requests()) else old(Requests()) + {id}
    {
      R.RegisteredWithoutMembers(table, id);
      R.UnsetRelatedMembers(filters.table, table, id);
      var count := Erase(id);
      if count == 0 && id !in removeRequests { removeRequests := removeRequests + [id]; }
    }
  }

  lemma RegisteredStep(was: seq<R.Registered>, i: nat, id: nat)
    requires i < |was|
    ensures var now := was[..i + 1] + R.RegisteredWithout(was[i + 1..], id);
            && now[i] == was[i]
            && (was[..i] + R.RegisteredWithout(was[i..], id) == if was[i].id == id then now[..i] + now[i + 1..] else now)
  {
    assert was[i..][1..] == was[i + 1..];
  }

  lemma FilterStep(was: seq<R.Filter>, i: nat, id: nat)
    requires i < |was|
    ensures var now := was[..i + 1] + R.FiltersWithout(was[i + 1..], id);
            && now[i] == was[i]
            && (was[..i] + R.FiltersWithout(was[i..], id) == if was[i].id == id then now[..i] + now[i + 1..] else now)
  {
    assert was[i..][1..] == was[i + 1..];
  }

  lemma UnsetStep(fs: seq<R.Filter>, was: seq<R.Registered>, i: nat, id: nat)
    requires i < |was|
    ensures var x := was[i];
            R.UnsetRelated(fs, was[..i + 1], id) ==
            R.UnsetRelated(if x.id == id && x.filterId > 0 then R.FiltersWithout(fs, x.filterId) else fs, was[..i], id)
  {
    assert was[..i + 1][..i] == was[..i];
  }
}
