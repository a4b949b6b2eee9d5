/** Data (src/data.cpp, include/ndn-ind/data.hpp): its fields, change count and cached encoding. */
module DataPacket {
  import opened Bytes
  import opened Names
  import opened WireFormats
  import opened ChangeCounts

  /** The value of an object that a Data packet holds, children aside. */
  datatype Field = NameField(name: Name) | Bytes(bytes: Blob)

  /** The objects that a Data packet holds itself. Its signature pointer is set from the start and never to null. */
  type Held = c: Child<Field> | c.Child? witness Child(Tracked(Bytes([]), 0, []), 0)

  type Shown = p: Plain<Field> | p.Plain? witness Plain(Bytes([]), [])

  datatype Fields = Fields(signature: Shown, name: Shown, metaInfo: Shown, content: Blob)

  /** An object with given values whose change count is `n`, as left by a decoder. */
  function Fresh(p: Shown, n: nat): (t: Tracked<Field>)
    ensures Values(t) == p && t.count == n
  {
    Tracked(p.value, n, FreshAll(p.children))
  }

  function FreshAll(ps: seq<Plain<Field>>): (cs: seq<Child<Field>>)
    ensures ValuesOf(cs) == ps
  {
    if ps == [] then [] else [FreshChild(ps[0])] + FreshAll(ps[1..])
  }

  function FreshChild(p: Plain<Field>): (c: Child<Field>)
    ensures ValuesIn(c) == p
  {
    if p.Nothing? then Null else var t := Fresh(p, 0); Child(t, 0)
  }

  lemma ConsChild(c: Child<Field>, cs: seq<Child<Field>>)
    ensures AnyChanged([c] + cs) == (CheckChanged(c) || AnyChanged(cs))
    ensures PollAll([c] + cs) == [Checked(c)] + PollAll(cs)
    ensures ValuesOf([c] + cs) == [ValuesIn(c)] + ValuesOf(cs)
    ensures SoundAll([c] + cs) == (SoundChild(c) && SoundAll(cs))
  {
    assert ([c] + cs)[1..] == cs;
  }

  lemma ThreeChildren(a: Child<Field>, b: Child<Field>, c: Child<Field>)
    ensures AnyChanged([a, b, c]) == (CheckChanged(a) || CheckChanged(b) || CheckChanged(c))
    ensures PollAll([a, b, c]) == [Checked(a), Checked(b), Checked(c)]
    ensures ValuesOf([a, b, c]) == [ValuesIn(a), ValuesIn(b), ValuesIn(c)]
    ensures SoundAll([a, b, c]) == (SoundChild(a) && SoundChild(b) && SoundChild(c))
  {
    ConsChild(c, []);
    ConsChild(b, [c]);
    ConsChild(a, [b, c]);
    assert [a, b, c] == [a] + [b, c] && [b, c] == [b] + [c] && [c] == [c] + [];
  }

  lemma SameFields(t: Tracked<Field>, u: Tracked<Field>)
    requires |t.children| == |u.children| == 3 && Values(t) == Values(u)
    ensures forall i :: 0 <= i < 3 ==> ValuesIn(t.children[i]) == ValuesIn(u.children[i])
  {
    forall i | 0 <= i < 3 ensures ValuesIn(t.children[i]) == ValuesIn(u.children[i]) {
      ValuesOfAt(t.children, i);
      ValuesOfAt(u.children, i);
    }
  }

  function NameOf(fs: Fields): Name { if fs.name.value.NameField? then fs.name.value.name else [] }

  /** The Data name with the implicit digest behind it. */
  function NameWithDigest(fs: Fields, digest: Blob): Name {
    NameOf(fs) + [Component(ImplicitSha256Digest, digest)]
  }

  lemma SameFullName(fs: Fields, gs: Fields, p: Blob, q: Blob)
    ensures NameWithDigest(fs, p) == NameWithDigest(gs, q) <==> p == q && NameOf(fs) == NameOf(gs)
  {
    var x, y := NameWithDigest(fs, p), NameWithDigest(gs, q);
    assert x[|x| - 1] == Component(ImplicitSha256Digest, p) && y[|y| - 1] == Component(ImplicitSha256Digest, q);
    assert x[..|x| - 1] == NameOf(fs) && y[..|y| - 1] == NameOf(gs);
  }

  class Data {
    const formats: Formats<Fields>
    var signature: Held
    var name: Held
    var metaInfo: Held
    var content: Blob
    var changeCount: nat
    var encoding: Option<Blob>
    var format: Format
    var encodingCount: nat
    var fullName: Name                  // defaultFullName_
    ghost var namedBy: (Format, Blob)   // the format and encoding that it was made from

    ghost function Tree(): Tracked<Field>
      reads this
    {
      Tracked(Bytes(content), changeCount, [signature, name, metaInfo])
    }

    function Current(): Fields
      reads this
    {
      Fields(Values(signature.target), Values(name.target), Values(metaInfo.target), content)
    }

    /**
     * A cached encoding that the next call would return decodes to the fields as they are, and no
     * later change can go unnoticed.
     */
    ghost predicate Coherent()
      reads this
    {
      && RoundTrips(formats)
      && (encoding.Some? ==>
            && Sound(Tree(), encodingCount)
            && formats.decode(format, encoding.value).complete
            && (encodingCount == Poll(Tree()).count ==> Encoded() == Current()))
    }

    /** The fields that the cached encoding shows: those at the time when it was recorded. */
    function Encoded(): Fields
      requires encoding.Some?
      reads this
    {
      formats.decode(format, encoding.value).value
    }

    constructor (formats: Formats<Fields>, name: Tracked<Field>)
      requires RoundTrips(formats)
      ensures Coherent() && this.name == Watch(name) && Current().name == Values(name)
      ensures this.formats == formats && encoding == None && fullName == [] && content == []
    {
      this.formats := formats;
      this.signature := Watch(Tracked(Bytes([]), 0, []));
      this.name := Watch(name);
      this.metaInfo := Watch(Tracked(Bytes([]), 0, []));
      this.content := [];
      this.changeCount, this.encodingCount := 0, 0;
      this.encoding, this.format := None, 0;
      this.fullName, this.namedBy := [], (0, []);
      new;
      CheckedSettles(Child(Tracked(Bytes([]), 0, []), 0));
      CheckedSettles(Child(name, 0));
      ThreeChildren(signature, this.name, metaInfo);
    }

    /** getChangeCount: every child is asked, and the own count goes up once if one of them changed. */
    method GetChangeCount() returns (r: nat)
      modifies this`signature, this`name, this`metaInfo, this`changeCount
      ensures Tree() == Poll(old(Tree())) && r == changeCount
      ensures changeCount == old(changeCount) +
                if old(Poll(signature.target).count != signature.seen ||
                       Poll(name.target).count != name.seen ||
                       Poll(metaInfo.target).count != metaInfo.seen) then 1 else 0
      ensures Current() == old(Current())
    {
      ThreeChildren(signature, name, metaInfo);
      CheckedSettles(signature);
      CheckedSettles(name);
      CheckedSettles(metaInfo);
      var changed := CheckChanged(signature);
      signature := Checked(signature);
      changed := CheckChanged(name) || changed;
      name := Checked(name);
      changed := CheckChanged(metaInfo) || changed;
      metaInfo := Checked(metaInfo);
      if changed { changeCount := changeCount + 1; }
      return changeCount;
    }

    /** The cached encoding, dropped first if anything has changed since it was recorded. */
    method GetDefaultWireEncoding() returns (r: Option<Blob>)
      modifies this
      ensures Current() == old(Current()) && r == encoding
      ensures Tree() == Poll(old(Tree())) && encodingCount == changeCount
      ensures r == if old(encodingCount) == Poll(old(Tree())).count then old(encoding) else None
      ensures r.Some? ==> format == old(format)
      ensures fullName == old(fullName) && namedBy == old(namedBy)
      ensures old(Coherent()) ==> Coherent()
      ensures old(Coherent()) && r.Some? ==> formats.decode(format, r.value) == Parsed(Current(), true)
    {
      PollSettles(Tree());
      var count := GetChangeCount();
      if encodingCount != count {
        encoding, format := None, 0;
        encodingCount := count;
      }
      return encoding;
    }

    method SetDefaultWireEncoding(e: Option<Blob>, f: Format)
      modifies this
      ensures Current() == old(Current()) && encoding == e && format == f
      ensures fullName == old(fullName) && namedBy == old(namedBy)
      ensures Tree() == Poll(old(Tree())) && encodingCount == changeCount
      ensures Coherent() <==>
              RoundTrips(formats) && (e.Some? ==> formats.decode(f, e.value) == Parsed(Current(), true))
    {
      PollSettles(Tree());
      encoding, format := e, f;
      encodingCount := GetChangeCount();
    }

    /** wireEncode never returns a stale encoding: cached or new, it decodes to the fields as they are. */
    method WireEncode(f: Format, default: Format) returns (r: Blob)
      modifies this
      ensures Current() == old(Current())
      ensures r == if old(encoding).Some? && old(encodingCount) == Poll(old(Tree())).count && old(format) == f
                   then old(encoding).value else formats.encode(f, Current())
      ensures old(Coherent()) ==> Coherent() && formats.decode(f, r) == Parsed(Current(), true)
      ensures Tree() == Poll(old(Tree())) && encodingCount == changeCount
      ensures f == default ==> encoding == Some(r) && format == f && Cached(f)
      ensures fullName == old(fullName) && namedBy == old(namedBy)
    {
      PollSettles(Tree());
      var cached := GetDefaultWireEncoding();
      if cached.Some? && format == f { return cached.value; }
      r := formats.encode(f, Current());
      if f == default { SetDefaultWireEncoding(Some(r), default); }
    }

    /**
     * wireDecode: a decoder that fails leaves the packet alone. One that succeeds replaces the
     * signature object and edits the others in place; `edits` is how often it adds to their counts.
     */
    method WireDecode(input: Blob, f: Format, default: Format, edits: (nat, nat, nat)) returns (ok: bool)
      requires Coherent()
      modifies this
      ensures Coherent() && ok == formats.decode(f, input).complete
      ensures Current() == if ok then formats.decode(f, input).value else old(Current())
      ensures ok ==> encoding == if f == default then Some(input) else None
    {
      var p := formats.decode(f, input);
      if !p.complete { return false; }
      ThreeChildren(signature, name, metaInfo);
      signature := Child(Fresh(p.value.signature, edits.0), 0);
      name := Child(Fresh(p.value.name, name.target.count + edits.1), name.seen);
      metaInfo := Child(Fresh(p.value.metaInfo, metaInfo.target.count + edits.2), metaInfo.seen);
      SetContent(p.value.content);
      if f == default {
        SetDefaultWireEncoding(Some(input), default);
      } else {
        SetDefaultWireEncoding(None, 0);
      }
      return true;
    }

    /** The copy constructor. It asks the other packet for its encoding, which may drop that one's cache. */
    constructor Copy(other: Data)
      requires other.Coherent()
      modifies other
      ensures Coherent() && Current() == old(other.Current())
      ensures other.Coherent() && other.Current() == old(other.Current())
      ensures formats == other.formats && encoding == other.encoding
    {
      formats := other.formats;
      name := other.name;
      metaInfo := other.metaInfo;
      content := other.content;
      signature := Watch(other.signature.target);
      changeCount := 1;
      fullName, namedBy := other.fullName, other.namedBy;
      new;
      CheckedSettles(Child(other.signature.target, 0));
      var e := other.GetDefaultWireEncoding();
      SetDefaultWireEncoding(e, other.format);
    }

    /**
     * operator= takes over the cached encoding as it is, without asking whether it is out of date.
     * The copy is coherent exactly when nothing in the other packet was changed since its encoding
     * was recorded, or the changes brought its fields back to what they were.
     */
    method Assign(other: Data)
      requires formats == other.formats && other.Coherent()
      modifies this
      ensures Current() == old(other.Current()) && encoding == old(other.encoding) && encodingCount == changeCount
      ensures Tree() == Poll(Tree()) && format == old(other.format)
      ensures Coherent() <==>
              old(other.encoding.None? ||
                  other.encodingCount == Poll(other.Tree()).count ||
                  other.Encoded() == other.Current())
    {
      CheckedSettles(Child(other.signature.target, 0));
      signature := Watch(other.signature.target);
      SetName(other.name.target);
      SetMetaInfo(other.metaInfo.target);
      SetContent(other.content);
      PollSettles(Tree());
      SetDefaultWireEncoding(other.encoding, other.format);
      PollSettles(Tree());
    }

    // ----- Full names -----

    /** The encoding that the next wireEncode in this format takes from the cache. */
    ghost predicate Cached(f: Format)
      reads this
    {
      encoding.Some? && encodingCount == Poll(Tree()).count && format == f
    }

    /** What wireEncode returns. */
    ghost function EncodingIn(f: Format): Blob
      reads this
    {
      if Cached(f) then encoding.value else formats.encode(f, Current())
    }

    /** The stored full name is that of the fields in the encoding it was made from. */
    ghost predicate Named(sha: Blob -> Blob)
      reads this
    {
      fullName != [] ==>
        var p := formats.decode(namedBy.0, namedBy.1);
        p.complete && fullName == NameWithDigest(p.value, sha(namedBy.1))
    }

    /** The name in the encoding that the stored full name was made from. */
    ghost function NamedName(): Name
      reads this
    {
      NameOf(formats.decode(namedBy.0, namedBy.1).value)
    }

    /**
     * getFullName returns the stored full name whenever an encoding in the format is cached, whatever
     * that encoding is. The result is right exactly when it is made afresh, or the stored name was made
     * from an encoding with the same digest and the same name.
     */
    method GetFullName(f: Format, default: Format, sha: Blob -> Blob) returns (r: Name)
      modifies this
      ensures Current() == old(Current()) && Tree() == Poll(old(Tree()))
      ensures r == if old(Cached(f)) && old(fullName) != [] then old(fullName)
                   else NameWithDigest(Current(), sha(old(EncodingIn(f))))
      ensures !old(Cached(f)) || old(fullName) == [] ==>
                && |r| == |NameOf(Current())| + 1
                && (forall i :: 0 <= i < |r| - 1 ==> r[i] == NameOf(Current())[i])
                && r[|r| - 1] == Component(ImplicitSha256Digest, sha(old(EncodingIn(f))))
      ensures old(Coherent() && Named(sha)) ==>
                && Coherent() && Named(sha)
                && (r == NameWithDigest(Current(), sha(old(EncodingIn(f)))) <==>
                    || !old(Cached(f))
                    || old(fullName) == []
                    || (sha(old(namedBy).1) == sha(old(EncodingIn(f))) && old(NamedName()) == NameOf(Current())))
      ensures f == default && !(old(Cached(f)) && old(fullName) != []) ==>
                fullName == r && namedBy == (f, old(EncodingIn(f)))
    {
      PollSettles(Tree());
      var cached := GetDefaultWireEncoding();
      if cached.Some? && |fullName| > 0 && format == f {
        SameFullName(formats.decode(namedBy.0, namedBy.1).value, Current(), sha(namedBy.1), sha(cached.value));
        return fullName;
      }
      var e := WireEncode(f, default);
      r := NameWithDigest(Current(), sha(e));
      if f == default { fullName, namedBy := r, (f, e); }
    }

    // ----- Setters -----

    method SetSignature(s: Tracked<Field>)
      modifies this`signature, this`changeCount
      ensures Current() == old(Current()).(signature := Values(s))
      ensures signature == Watch(s) && changeCount == old(changeCount) + 1
      ensures old(Coherent()) ==> Coherent()
    {
      CheckedSettles(Child(s, 0));
      ThreeChildren(signature, name, metaInfo);
      signature := Watch(s);
      changeCount := changeCount + 1;
      ThreeChildren(signature, name, metaInfo);
    }

    method SetName(n: Tracked<Field>)
      modifies this`name, this`changeCount
      ensures Current() == old(Current()).(name := Values(n))
      ensures name == Watch(n) && changeCount == old(changeCount) + 1
      ensures old(Coherent()) ==> Coherent()
    {
      CheckedSettles(Child(n, 0));
      ThreeChildren(signature, name, metaInfo);
      name := Watch(n);
      changeCount := changeCount + 1;
      ThreeChildren(signature, name, metaInfo);
    }

    method SetMetaInfo(m: Tracked<Field>)
      modifies this`metaInfo, this`changeCount
      ensures Current() == old(Current()).(metaInfo := Values(m))
      ensures metaInfo == Watch(m) && changeCount == old(changeCount) + 1
      ensures old(Coherent()) ==> Coherent()
    {
      CheckedSettles(Child(m, 0));
      ThreeChildren(signature, name, metaInfo);
      metaInfo := Watch(m);
      changeCount := changeCount + 1;
      ThreeChildren(signature, name, metaInfo);
    }

    method SetContent(c: Blob)
      modifies this`content, this`changeCount
      ensures Current() == old(Current()).(content := c)
      ensures changeCount == old(changeCount) + 1
      ensures old(Coherent()) ==> Coherent()
    {
      content := c;
      changeCount := changeCount + 1;
    }

    // ----- Changes through the references that getSignature, getName and getMetaInfo hand out -----

    /** Any operation on a child or on one of the child's own children keeps the cache coherent. */
    method EditChild(i: nat, op: Op<Field>)
      requires i < 3 && Legal(Tree().children[i].target, op)
      modifies this`signature, this`name, this`metaInfo
      ensures Tree() == Apply(old(Tree()), Within(i, op))
      ensures old(Coherent()) ==> Coherent()
    {
      if encoding.Some? && Sound(Tree(), encodingCount) { NoticedOrInvisible(Tree(), Within(i, op), encodingCount); }
      if i == 0 {
        signature := Child(Apply(signature.target, op), signature.seen);
      } else if i == 1 {
        name := Child(Apply(name.target, op), name.seen);
      } else {
        metaInfo := Child(Apply(metaInfo.target, op), metaInfo.seen);
      }
      assert [signature, name, metaInfo] == Apply(old(Tree()), Within(i, op)).children;
      if Values(old(Tree())) == Values(Tree()) { SameFields(old(Tree()), Tree()); }
    }

    /**
     * `getName() = u` replaces the name together with its count, whatever the count is. A cached
     * encoding stays coherent exactly when it was out of date already, or the count did not fall
     * below the recorded one and the next poll notices a change or finds the fields that it shows.
     * A count ahead of the recorded one is always enough.
     */
    method AssignName(u: Tracked<Field>)
      modifies this`name
      ensures name == Child(u, old(name.seen)) && Current() == old(Current()).(name := Values(u))
      ensures Tree() == AssignChild(old(Tree()), 1, u)
      ensures old(Coherent()) && SoundAll(u.children) ==>
                (Coherent() <==>
                 || encoding.None?
                 || encodingCount < changeCount
                 || (u.count >= old(name.seen) && (Poll(Tree()).count == encodingCount ==> Encoded() == Current())))
      ensures old(Coherent()) && SoundAll(u.children) && Poll(u).count > old(name.seen) ==> Coherent()
    {
      ThreeChildren(signature, name, metaInfo);
      PollSettles(u);
      name := Child(u, name.seen);
      ThreeChildren(signature, name, metaInfo);
    }
  }

  /** So an encoding can be stale after all: it still shows the name that was assigned over. */
  method StaleEncoding(formats: Formats<Fields>, f: Format, x: Name, y: Name, n: nat) returns (d: Data, r: Blob)
    requires RoundTrips(formats) && x != y
    ensures d.Current().name.value == NameField(y)
    ensures d.formats == formats && formats.decode(f, r) == Parsed(d.Current().(name := Plain(NameField(x), [])), true)
  {
    d := new Data(formats, Tracked(NameField(x), n, []));
    ghost var t := d.Tree();
    r := d.WireEncode(f, f);
    PollSettles(t);
    LeafPoll(NameField(x), n);
    LeafPoll(NameField(y), n);
    ThreeChildren(t.children[0], t.children[1], t.children[2]);
    AssignmentNoticed(d.Tree(), 1, Tracked(NameField(y), n, []));
    d.AssignName(Tracked(NameField(y), n, []));
    r := d.WireEncode(f, f);
  }

  /** Also when the counts differ at first: an empty name is assigned and then built up to the old count. */
  method StaleAfterEdits(formats: Formats<Fields>, f: Format, x: Name, y: Name) returns (d: Data, r: Blob)
    requires RoundTrips(formats) && x != y
    ensures d.Current().name.value == NameField(y)
    ensures d.formats == formats && formats.decode(f, r) == Parsed(d.Current().(name := Plain(NameField(x), [])), true)
  {
    d := new Data(formats, Tracked(NameField(x), 2, []));
    ghost var t := d.Tree();
    r := d.WireEncode(f, f);
    PollSettles(t);
    LeafPoll(NameField(x), 2);
    ThreeChildren(t.children[0], t.children[1], t.children[2]);
    BuildUp(d, y);
    r := d.WireEncode(f, f);
  }

  /** An empty name is assigned to a name with two changes, and two components are appended. */
  method BuildUp(d: Data, y: Name)
    requires !AnyChanged(d.Tree().children) && d.name.seen == 2
    modifies d`signature, d`name, d`metaInfo
    ensures d.Current() == old(d.Current()).(name := Plain(NameField(y), []))
    ensures Poll(d.Tree()).count == d.changeCount
  {
    ghost var t := d.Tree();
    d.AssignName(Tracked(NameField([]), 0, []));
    var z := Tracked(NameField(y), 2, []);
    d.EditChild(1, Change(NameField(y), 2, []));
    assert d.Tree().children == AssignChild(t, 1, z).children;
    ghost var cs := d.Tree().children;
    assert cs[0] == d.signature && cs[1] == d.name && cs[2] == d.metaInfo;
    assert d.signature == t.children[0] && d.name == Child(z, 2) && d.metaInfo == t.children[2];
    LeafPoll(NameField(y), 2);
    AssignmentNoticed(t, 1, z);
  }

  /** And so it can be after the assignment of a packet whose last change nobody has asked about. */
  method StaleAssignment(formats: Formats<Fields>, f: Format, x: Name, y: Name) returns (d: Data, r: Blob)
    requires RoundTrips(formats) && x != y
    ensures d.Current().name.value == NameField(y)
    ensures d.formats == formats && formats.decode(f, r) == Parsed(d.Current().(name := Plain(NameField(x), [])), true)
  {
    var other := new Data(formats, Tracked(NameField(x), 0, []));
    r := other.WireEncode(f, f);
    other.SetName(Tracked(NameField(y), 0, []));
    d := new Data(formats, Tracked(NameField(y), 0, []));
    d.Assign(other);
    r := d.WireEncode(f, f);
  }

  /** The stored full name survives a change: once the packet is encoded again, getFullName returns the old one. */
  method StaleFullName(formats: Formats<Fields>, f: Format, x: Name, content: Blob, sha: Blob -> Blob)
      returns (d: Data, r: Name)
    requires RoundTrips(formats) && content != []
    ensures d.formats == formats && d.Current().content == content
    ensures r == NameWithDigest(d.Current(), sha(formats.encode(f, d.Current().(content := []))))
    ensures formats.encode(f, d.Current().(content := [])) != formats.encode(f, d.Current())
  {
    d := new Data(formats, Tracked(NameField(x), 0, []));
    r := d.GetFullName(f, f, sha);
    d.SetContent(content);
    var _ := d.WireEncode(f, f);
    r := d.GetFullName(f, f, sha);
    assert formats.decode(f, formats.encode(f, d.Current())).value.content == content;
    assert formats.decode(f, formats.encode(f, d.Current().(content := []))).value.content == [];
  }
}
