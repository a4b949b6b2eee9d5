/** DelegationSet (src/delegation-set.cpp, include/ndn-ind/delegation-set.hpp). */
module Delegations {
  import opened Bytes
  import opened Names
  import opened Order
  import opened WireFormats

  datatype Delegation = Delegation(preference: int, name: Name)

  function Compare(a: Delegation, b: Delegation): int {
    if a.preference < b.preference then -1
    else if a.preference > b.preference then 1
    else CompareNames(a.name, b.name)
  }

  /** The list without the delegations whose name equals `n`. */
  function Without(ds: seq<Delegation>, n: Name): seq<Delegation> {
    if ds == [] then []
    else if SameValues(ds[0].name, n) then Without(ds[1..], n)
    else [ds[0]] + Without(ds[1..], n)
  }

  /** The delegation put before the first one that is not less. */
  function Insert(ds: seq<Delegation>, d: Delegation): seq<Delegation> {
    if ds == [] || Compare(ds[0], d) >= 0 then [d] + ds else [ds[0]] + Insert(ds[1..], d)
  }

  // ----- Runs of add, remove and clear, against a map from name values to the delegation added last -----

  datatype Op = Add(preference: int, name: Name) | Remove(name: Name) | Clear

  function Apply(ds: seq<Delegation>, op: Op): seq<Delegation> {
    match op
    case Add(p, n) => Insert(Without(ds, n), Delegation(p, n))
    case Remove(n) => Without(ds, n)
    case Clear => []
  }

  function Run(ops: seq<Op>): seq<Delegation> {
    if ops == [] then [] else Apply(Run(ops[..|ops| - 1]), ops[|ops| - 1])
  }

  function NameValues(n: Name): seq<Blob> { seq(|n|, i requires 0 <= i < |n| => n[i].value) }

  function LastAdded(ops: seq<Op>): map<seq<Blob>, Delegation> {
    if ops == [] then map[] else
      var m := LastAdded(ops[..|ops| - 1]);
      match ops[|ops| - 1]
      case Add(p, n) => m[NameValues(n) := Delegation(p, n)]
      case Remove(n) => m - {NameValues(n)}
      case Clear => map[]
  }

  predicate Increasing(ds: seq<Delegation>) {
    forall i, j :: 0 <= i < j < |ds| ==> Compare(ds[i], ds[j]) < 0
  }

  predicate DistinctNames(ds: seq<Delegation>) {
    forall i, j :: 0 <= i < j < |ds| ==> !SameValues(ds[i].name, ds[j].name)
  }

  /** The list holds the values of the map, each under its own key. */
  predicate Holds(ds: seq<Delegation>, m: map<seq<Blob>, Delegation>) {
    && (forall d :: d in ds ==> NameValues(d.name) in m && m[NameValues(d.name)] == d)
    && (forall k :: k in m ==> m[k] in ds)
  }

  /** DelegationSet::find. */
  predicate FoundAt(ds: seq<Delegation>, n: Name, i: int) {
    && -1 <= i < |ds|
    && (i == -1 ==> forall d :: d in ds ==> !SameValues(d.name, n))
    && (i >= 0 ==> SameValues(ds[i].name, n) && forall k :: 0 <= k < i ==> !SameValues(ds[k].name, n))
  }

  /**
   * After any run the list is strictly increasing, no name is in it twice, and looking a name up
   * gives the delegation added last under that name, if it was not removed since.
   */
  lemma RunAgreesWithMap(ops: seq<Op>, n: Name, i: int)
    requires FoundAt(Run(ops), n, i)
    ensures forall j, k :: 0 <= j < k < |Run(ops)| ==>
              var d, e := Run(ops)[j], Run(ops)[k];
              d.preference < e.preference || (d.preference == e.preference && CompareNames(d.name, e.name) < 0)
    ensures Increasing(Run(ops)) && DistinctNames(Run(ops))
    ensures i >= 0 <==> NameValues(n) in LastAdded(ops)
    ensures i >= 0 ==> Run(ops)[i] == LastAdded(ops)[NameValues(n)]
  {
    RunHolds(ops);
    var ds, m := Run(ops), LastAdded(ops);
    if i >= 0 {
      SameKey(ds[i].name, n);
      assert ds[i] in ds;
    } else if NameValues(n) in m {
      SameKey(m[NameValues(n)].name, n);
    }
  }

  predicate Agrees(ds: seq<Delegation>, m: map<seq<Blob>, Delegation>) {
    && Increasing(ds)
    && DistinctNames(ds)
    && Holds(ds, m)
    && forall k :: k in m ==> NameValues(m[k].name) == k
  }

  lemma {:induction false} RunHolds(ops: seq<Op>)
    ensures Agrees(Run(ops), LastAdded(ops))
  {
    if ops != [] {
      var before := ops[..|ops| - 1];
      RunHolds(before);
      var op := ops[|ops| - 1];
      if !op.Clear? {
        RemoveAgrees(Run(before), op.name, LastAdded(before));
        if op.Add? { AddAgrees(Run(before), op.preference, op.name, LastAdded(before)); }
      }
    }
  }

  lemma RemoveAgrees(ds: seq<Delegation>, n: Name, m: map<seq<Blob>, Delegation>)
    requires Agrees(ds, m)
    ensures Agrees(Without(ds, n), m - {NameValues(n)})
  {
    WithoutKeeps(ds, n);
    WithoutMembers(ds, n);
    forall d | d in ds ensures SameValues(d.name, n) <==> NameValues(d.name) == NameValues(n) { SameKey(d.name, n); }
  }

  lemma AddAgrees(ds: seq<Delegation>, p: int, n: Name, m: map<seq<Blob>, Delegation>)
    requires Agrees(Without(ds, n), m - {NameValues(n)})
    ensures Agrees(Insert(Without(ds, n), Delegation(p, n)), m[NameValues(n) := Delegation(p, n)])
  {
    WithoutMembers(ds, n);
    InsertKeeps(Without(ds, n), Delegation(p, n));
    AddHolds(Without(ds, n), Delegation(p, n), NameValues(n), m);
    var less, more := m - {NameValues(n)}, m[NameValues(n) := Delegation(p, n)];
    assert forall k :: k in more && k != NameValues(n) ==> k in less && more[k] == less[k];
  }

  lemma AddHolds(ds: seq<Delegation>, d: Delegation, key: seq<Blob>, m: map<seq<Blob>, Delegation>)
    requires key == NameValues(d.name) && Holds(ds, m - {key})
    ensures Holds(Insert(ds, d), m[key := d])
  {
    InsertMembers(ds, d);
    var less, more := m - {key}, m[key := d];
    forall k | k in more ensures more[k] in Insert(ds, d) {
      if k != key { assert k in less; }
    }
  }

  lemma SameKey(x: Name, y: Name)
    ensures SameValues(x, y) <==> NameValues(x) == NameValues(y)
  {
    if NameValues(x) == NameValues(y) {
      assert forall i :: 0 <= i < |x| ==> NameValues(x)[i] == x[i].value && NameValues(y)[i] == y[i].value;
    }
  }

  lemma {:induction false} WithoutMembers(ds: seq<Delegation>, n: Name)
    ensures forall d :: d in Without(ds, n) <==> d in ds && !SameValues(d.name, n)
  {
    if ds != [] { WithoutMembers(ds[1..], n); }
  }

  lemma ConsKeeps(d: Delegation, ds: seq<Delegation>)
    requires Increasing(ds) && DistinctNames(ds)
    requires forall e :: e in ds ==> Compare(d, e) < 0 && !SameValues(d.name, e.name)
    ensures Increasing([d] + ds) && DistinctNames([d] + ds)
  {
  }

  lemma {:induction false} WithoutKeeps(ds: seq<Delegation>, n: Name)
    requires Increasing(ds) && DistinctNames(ds)
    ensures Increasing(Without(ds, n)) && DistinctNames(Without(ds, n))
  {
    if ds != [] {
      WithoutKeeps(ds[1..], n);
      WithoutMembers(ds[1..], n);
      ConsKeeps(ds[0], Without(ds[1..], n));
    }
  }

  lemma {:induction false} InsertMembers(ds: seq<Delegation>, d: Delegation)
    ensures forall e :: e in Insert(ds, d) <==> e == d || e in ds
  {
    if ds != [] && Compare(ds[0], d) < 0 { InsertMembers(ds[1..], d); }
  }

  lemma CompareOrder(a: Delegation, b: Delegation, c: Delegation)
    ensures Compare(a, b) == -Compare(b, a)
    ensures Compare(a, b) <= 0 && Compare(b, c) < 0 ==> Compare(a, c) < 0
    ensures Compare(a, b) == 0 ==> SameValues(a.name, b.name)
  {
    NameAntisymmetry(a.name, b.name);
    NameZero(a.name, b.name);
    if CompareNames(a.name, b.name) <= 0 && CompareNames(b.name, c.name) <= 0 {
      NameTransitivity(a.name, b.name, c.name);
    }
  }

  lemma {:induction false} InsertKeeps(ds: seq<Delegation>, d: Delegation)
    requires Increasing(ds) && DistinctNames(ds)
    requires forall e :: e in ds ==> !SameValues(e.name, d.name)
    ensures Increasing(Insert(ds, d)) && DistinctNames(Insert(ds, d))
  {
    if ds == [] {
    } else if Compare(ds[0], d) >= 0 {
      forall j | 0 <= j < |ds| ensures Compare(d, ds[j]) < 0 {
        assert ds[0] in ds;
        CompareOrder(d, ds[0], ds[j]);
      }
      ConsKeeps(d, ds);
    } else {
      InsertKeeps(ds[1..], d);
      InsertMembers(ds[1..], d);
      assert ds[0] in ds;
      ConsKeeps(ds[0], Insert(ds[1..], d));
    }
  }

  // ----- The object -----

  lemma InsertStep(ds: seq<Delegation>, i: nat, d: Delegation)
    requires i < |ds| && Compare(ds[i], d) < 0
    ensures ds[..i] + Insert(ds[i..], d) == ds[..i + 1] + Insert(ds[i + 1..], d)
  {
    assert ds[i..][1..] == ds[i + 1..];
  }

  /** The place where a delegation is put, by preference and name. */
  lemma PlaceMeans(ds: seq<Delegation>, d: Delegation, i: nat)
    requires i <= |ds| && (forall k :: 0 <= k < i ==> Compare(ds[k], d) < 0) && (i < |ds| ==> Compare(ds[i], d) >= 0)
    ensures forall k :: 0 <= k < i ==>
              ds[k].preference < d.preference || (ds[k].preference == d.preference && CompareNames(ds[k].name, d.name) < 0)
    ensures i < |ds| ==>
              d.preference < ds[i].preference || (d.preference == ds[i].preference && CompareNames(ds[i].name, d.name) >= 0)
  {
  }

  /** One step of the backward loop of remove. */
  lemma EraseStep(ds: seq<Delegation>, i: nat, n: Name)
    requires i < |ds|
    ensures var now := ds[..i + 1] + Without(ds[i + 1..], n);
            && now[i] == ds[i]
            && ds[..i] + Without(ds[i..], n) ==
               if SameValues(ds[i].name, n) then now[..i] + now[i + 1..] else now
  {
    assert ds[i..][1..] == ds[i + 1..];
  }

  class DelegationSet {
    const formats: Formats<seq<Delegation>>
    var delegations: seq<Delegation>
    var changeCount: nat
    var encoding: Option<Blob>
    var format: Format
    var encodingCount: nat

    /** A cached encoding that the next call would return decodes to the list as it is. */
    ghost predicate Coherent()
      reads this
    {
      && RoundTrips(formats)
      && encodingCount <= changeCount
      && (encoding.Some? && encodingCount == changeCount ==>
            formats.decode(format, encoding.value) == Parsed(delegations, true))
    }

    constructor (formats: Formats<seq<Delegation>>)
      requires RoundTrips(formats)
      ensures Coherent() && delegations == Run([])
    {
      this.formats := formats;
      delegations, changeCount, encodingCount := [], 0, 0;
      encoding, format := None, 0;
    }

    /** The copy constructor, which keeps the change count of the other set. */
    constructor Copy(other: DelegationSet)
      requires other.Coherent()
      modifies other
      ensures Coherent() && delegations == old(other.delegations) && encoding == other.encoding
      ensures other.Coherent() && other.delegations == old(other.delegations)
    {
      formats := other.formats;
      delegations, changeCount := other.delegations, other.changeCount;
      new;
      var e := other.GetDefaultWireEncoding();
      SetDefaultWireEncoding(e, other.format);
    }

    /** operator= */
    method Assign(other: DelegationSet)
      requires other.Coherent() && formats == other.formats
      modifies this, other
      ensures Coherent() && other.Coherent()
      ensures delegations == other.delegations == old(other.delegations)
    {
      delegations := other.delegations;
      var e := other.GetDefaultWireEncoding();
      SetDefaultWireEncoding(e, other.format);
    }

    method Add(preference: int, name: Name)
      requires Coherent()
      modifies this`delegations, this`changeCount
      ensures Coherent() && delegations == Apply(old(delegations), Op.Add(preference, name))
      ensures forall d :: d in delegations <==>
                d == Delegation(preference, name) || (d in old(delegations) && !SameValues(d.name, name))
    {
      WithoutMembers(delegations, name);
      InsertMembers(Without(delegations, name), Delegation(preference, name));
      var _ := Remove(name);
      var d := Delegation(preference, name);
      var i := FindPlace(d);
      delegations := delegations[..i] + [d] + delegations[i..];
      changeCount := changeCount + 1;
    }

    /** The index of the first delegation that is not less. */
    method FindPlace(d: Delegation) returns (i: nat)
      ensures i <= |delegations| && Insert(delegations, d) == delegations[..i] + [d] + delegations[i..]
      ensures forall k :: 0 <= k < i ==>
                var e := delegations[k];
                e.preference < d.preference || (e.preference == d.preference && CompareNames(e.name, d.name) < 0)
      ensures i < |delegations| ==>
                var e := delegations[i];
                d.preference < e.preference || (d.preference == e.preference && CompareNames(e.name, d.name) >= 0)
    {
      i := SearchPlace(d);
      PlaceMeans(delegations, d, i);
    }

    /** The loop of add. */
    method SearchPlace(d: Delegation) returns (i: nat)
      ensures i <= |delegations| && Insert(delegations, d) == delegations[..i] + [d] + delegations[i..]
      ensures forall k :: 0 <= k < i ==> Compare(delegations[k], d) < 0
      ensures i < |delegations| ==> Compare(delegations[i], d) >= 0
    {
      ghost var ds, inserted := delegations, Insert(delegations, d);
      i := 0;
      while i < |delegations|
        invariant i <= |ds| && inserted == ds[..i] + Insert(ds[i..], d)
        invariant forall k :: 0 <= k < i ==> Compare(ds[k], d) < 0
      {
        if Compare(delegations[i], d) >= 0 { break; }
        InsertStep(ds, i, d);
        i := i + 1;
      }
      assert Insert(ds[i..], d) == [d] + ds[i..];
    }

    method AddUnsorted(d: Delegation)
      requires Coherent()
      modifies this`delegations, this`changeCount
      ensures Coherent() && delegations == old(delegations) + [d]
      ensures changeCount == old(changeCount) + 1
    {
      delegations := delegations + [d];
      changeCount := changeCount + 1;
    }

    /** Erase from the back every delegation with the name. */
    method Remove(name: Name) returns (removed: bool)
      requires Coherent()
      modifies this`delegations, this`changeCount
      ensures Coherent() && delegations == Apply(old(delegations), Op.Remove(name))
      ensures forall d :: d in delegations <==> d in old(delegations) && !SameValues(d.name, name)
      ensures removed <==> |delegations| < |old(delegations)|
      ensures !removed ==> delegations == old(delegations) && changeCount == old(changeCount)
    {
      removed := false;
      ghost var ds := delegations;
      for i := |delegations| downto 0
        invariant |delegations| >= i && delegations == ds[..i] + Without(ds[i..], name)
        invariant |delegations| <= |ds| && (removed <==> |delegations| < |ds|)
        invariant !removed ==> delegations == ds
        invariant changeCount == old(changeCount)
      {
        EraseStep(ds, i, name);
        var same := Equals(delegations[i].name, name);
        if same {
          removed := true;
          delegations := delegations[..i] + delegations[i + 1..];
        }
      }
      assert ds[..0] == [] && ds[0..] == ds;
      if removed { changeCount := changeCount + 1; }
      WithoutMembers(ds, name);
    }

    method Clear()
      requires Coherent()
      modifies this`delegations, this`changeCount
      ensures Coherent() && delegations == Apply(old(delegations), Op.Clear) == []
      ensures changeCount == old(changeCount) + 1
    {
      delegations := [];
      changeCount := changeCount + 1;
    }

    method Find(name: Name) returns (i: int)
      ensures FoundAt(delegations, name, i)
      ensures i == -1 || 0 <= i < |delegations|
      ensures i == -1 <==> forall d :: d in delegations ==> !SameValues(d.name, name)
      ensures i >= 0 ==> SameValues(delegations[i].name, name)
      ensures forall k :: 0 <= k < i ==> !SameValues(delegations[k].name, name)
    {
      i := 0;
      while i < |delegations|
        invariant 0 <= i <= |delegations|
        invariant forall k :: 0 <= k < i ==> !SameValues(delegations[k].name, name)
      {
        var same := Equals(delegations[i].name, name);
        if same { return i; }
        i := i + 1;
      }
      return -1;
    }

    method GetDefaultWireEncoding() returns (r: Option<Blob>)
      requires Coherent()
      modifies this`encoding, this`format, this`encodingCount
      ensures Coherent() && encodingCount == changeCount && r == encoding
      ensures r == if old(encodingCount) == changeCount then old(encoding) else None
      ensures r.Some? ==> format == old(format) && formats.decode(format, r.value) == Parsed(delegations, true)
    {
      if encodingCount != changeCount {
        encoding, format := None, 0;
        encodingCount := changeCount;
      }
      return encoding;
    }

    method SetDefaultWireEncoding(e: Option<Blob>, f: Format)
      requires RoundTrips(formats) && (e.Some? ==> formats.decode(f, e.value) == Parsed(delegations, true))
      modifies this`encoding, this`format, this`encodingCount
      ensures Coherent() && encoding == e && format == f && encodingCount == changeCount
    {
      encoding, format := e, f;
      encodingCount := changeCount;
    }

    /** wireEncode never returns a stale encoding. */
    method WireEncode(f: Format, default: Format) returns (r: Blob)
      requires Coherent()
      modifies this`encoding, this`format, this`encodingCount
      ensures Coherent() && formats.decode(f, r) == Parsed(delegations, true)
    {
      var cached := GetDefaultWireEncoding();
      if cached.Some? && format == f { return cached.value; }
      r := formats.encode(f, delegations);
      if f == default { SetDefaultWireEncoding(Some(r), default); }
    }

    /** wireDecode: the list is cleared and filled in wire order; a failure stops in the middle. */
    method WireDecode(input: Blob, f: Format, default: Format) returns (ok: bool)
      requires Coherent()
      modifies this
      ensures Coherent() && ok == formats.decode(f, input).complete
      ensures delegations == formats.decode(f, input).value
      ensures encoding == if !ok then old(encoding) else if f == default then Some(input) else None
    {
      var p := formats.decode(f, input);
      Clear();
      for i := 0 to |p.value|
        invariant Coherent() && delegations == p.value[..i] && encoding == old(encoding)
        invariant encodingCount < changeCount
      {
        AddUnsorted(p.value[i]);
      }
      assert delegations == p.value;
      if !p.complete { return false; }
      if f == default {
        SetDefaultWireEncoding(Some(input), default);
      } else {
        SetDefaultWireEncoding(None, 0);
      }
      return true;
    }
  }
}
