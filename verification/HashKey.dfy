/**
 The bytes fed to the key hash (internal/upstream/hashkey.go).

 The hash itself is not modelled.  `DecodeKey` reads the fed bytes back, so the
 bytes determine the ordered list of source kinds, presence and values.
 */
module HashKey {
  import opened Wrappers

  type Bytes = seq<Byte>

  // ----- unsigned varints

  function Uvarint(v: nat): (r: Bytes)
    ensures |r| > 0
  {
    if v < 128 then [v] else [v % 128 + 128] + Uvarint(v / 128)
  }

  /** Reads one varint; the rest of the input comes back with it. */
  function DecodeUvarint(b: Bytes): (r: Option<(nat, Bytes)>)
    ensures r.Some? ==> |r.value.1| < |b|
  {
    if b == [] then None
    else if b[0] < 128 then Some((b[0], b[1..]))
    else
      var tail := DecodeUvarint(b[1..]);
      if tail.None? then None else Some(((b[0] - 128) + 128 * tail.value.0, tail.value.1))
  }

  lemma {:induction false} UvarintRoundTrip(v: nat, rest: Bytes)
    ensures DecodeUvarint(Uvarint(v) + rest) == Some((v, rest))
  {
    var b := Uvarint(v) + rest;
    if v < 128 {
      assert b[1..] == rest;
    } else {
      UvarintRoundTrip(v / 128, rest);
      assert b[1..] == Uvarint(v / 128) + rest;
    }
  }

  // ----- length-prefixed strings

  function EncodeString(s: Bytes): Bytes {
    Uvarint(|s|) + s
  }

  function DecodeString(b: Bytes): (r: Option<(Bytes, Bytes)>)
    ensures r.Some? ==> |r.value.1| < |b|
  {
    var length := DecodeUvarint(b);
    if length.None? || length.value.0 > |length.value.1| then None
    else Some((length.value.1[..length.value.0], length.value.1[length.value.0..]))
  }

  lemma StringRoundTrip(s: Bytes, rest: Bytes)
    ensures DecodeString(EncodeString(s) + rest) == Some((s, rest))
  {
    assert EncodeString(s) + rest == Uvarint(|s|) + (s + rest);
    UvarintRoundTrip(|s|, s + rest);
    assert (s + rest)[..|s|] == s && (s + rest)[|s|..] == rest;
  }

  function EncodeStrings(vs: seq<Bytes>): Bytes {
    if vs == [] then [] else EncodeString(vs[0]) + EncodeStrings(vs[1..])
  }

  function DecodeStrings(b: Bytes, n: nat): Option<(seq<Bytes>, Bytes)>
    decreases n
  {
    if n == 0 then Some(([], b))
    else
      var first := DecodeString(b);
      if first.None? then None
      else
        var more := DecodeStrings(first.value.1, n - 1);
        if more.None? then None else Some(([first.value.0] + more.value.0, more.value.1))
  }

  lemma {:induction false} StringsRoundTrip(vs: seq<Bytes>, rest: Bytes)
    ensures DecodeStrings(EncodeStrings(vs) + rest, |vs|) == Some((vs, rest))
  {
    hide DecodeString, EncodeString;
    if vs == [] {
      assert EncodeStrings(vs) + rest == rest;
    } else {
      assert EncodeStrings(vs) + rest == EncodeString(vs[0]) + (EncodeStrings(vs[1..]) + rest);
      StringRoundTrip(vs[0], EncodeStrings(vs[1..]) + rest);
      StringsRoundTrip(vs[1..], rest);
      assert vs == [vs[0]] + vs[1..];
    }
  }

  // ----- components

  /** One key source: its tag and its values.  No values means the source is missing. */
  datatype Component = Component(tag: Byte, values: seq<Bytes>)

  function EncodeComponent(c: Component): Bytes {
    [c.tag] + (if c.values == [] then [0] + Uvarint(0) else [1] + (Uvarint(|c.values|) + EncodeStrings(c.values)))
  }

  function DecodeComponent(b: Bytes): (r: Option<(Component, Bytes)>)
  {
    if |b| < 2 then None
    else
      var count := DecodeUvarint(b[2..]);
      if count.None? || (b[1] == 0 && count.value.0 != 0) then None
      else
        var values := DecodeStrings(count.value.1, count.value.0);
        if values.None? then None else Some((Component(b[0], values.value.0), values.value.1))
  }

  lemma ComponentRoundTrip(c: Component, rest: Bytes)
    ensures DecodeComponent(EncodeComponent(c) + rest) == Some((c, rest))
  {
    hide DecodeUvarint, Uvarint, EncodeStrings, DecodeStrings;
    var b := EncodeComponent(c) + rest;
    if c.values == [] {
      assert b[2..] == Uvarint(0) + rest;
      UvarintRoundTrip(0, rest);
      StringsRoundTrip([], rest);
      assert EncodeStrings([]) + rest == rest by { EmptyStrings(); }
    } else {
      assert b[2..] == Uvarint(|c.values|) + (EncodeStrings(c.values) + rest);
      UvarintRoundTrip(|c.values|, EncodeStrings(c.values) + rest);
      StringsRoundTrip(c.values, rest);
    }
  }

  lemma EmptyStrings()
    ensures EncodeStrings([]) == []
  {
  }

  function EncodeComponents(cs: seq<Component>): Bytes {
    if cs == [] then [] else EncodeComponent(cs[0]) + EncodeComponents(cs[1..])
  }

  function DecodeComponents(b: Bytes, n: nat): Option<(seq<Component>, Bytes)>
    decreases n
  {
    if n == 0 then Some(([], b))
    else
      var first := DecodeComponent(b);
      if first.None? then None
      else
        var more := DecodeComponents(first.value.1, n - 1);
        if more.None? then None else Some(([first.value.0] + more.value.0, more.value.1))
  }

  lemma {:induction false} ComponentsRoundTrip(cs: seq<Component>, rest: Bytes)
    ensures DecodeComponents(EncodeComponents(cs) + rest, |cs|) == Some((cs, rest))
  {
    hide EncodeComponent, DecodeComponent;
    if cs == [] {
      assert EncodeComponents(cs) + rest == rest;
    } else {
      assert EncodeComponents(cs) + rest == EncodeComponent(cs[0]) + (EncodeComponents(cs[1..]) + rest);
      ComponentRoundTrip(cs[0], EncodeComponents(cs[1..]) + rest);
      ComponentsRoundTrip(cs[1..], rest);
      assert cs == [cs[0]] + cs[1..];
    }
  }

  function EncodeKey(cs: seq<Component>): Bytes {
    Uvarint(|cs|) + EncodeComponents(cs)
  }

  function DecodeKey(b: Bytes): Option<seq<Component>> {
    var count := DecodeUvarint(b);
    if count.None? then None
    else
      var cs := DecodeComponents(count.value.1, count.value.0);
      if cs.None? || cs.value.1 != [] then None else Some(cs.value.0)
  }

  /** The fed bytes determine the components. */
  lemma KeyRoundTrip(cs: seq<Component>)
    ensures DecodeKey(EncodeKey(cs)) == Some(cs)
  {
    UvarintRoundTrip(|cs|, EncodeComponents(cs));
    ComponentsRoundTrip(cs, []);
    assert EncodeComponents(cs) + [] == EncodeComponents(cs);
  }

  // ----- extracting a key from a request

  datatype SourceKind = Header | Cookie | RemoteAddr | Literal

  datatype Source = Source(kind: SourceKind, name: string, value: Bytes)

  /**
   What the extractor reads of a request: header lines, the first valid cookie of
   each name, and the canonical remote address (None when it is empty).  A missing
   request is the view with nothing in it.
   */
  datatype View = View(headers: map<string, seq<Bytes>>, cookies: map<string, Bytes>, remote: Option<Bytes>)

  function Tag(kind: SourceKind): Byte {
    match kind
    case Header => 1
    case Cookie => 2
    case RemoteAddr => 3
    case Literal => 4
  }

  function ComponentOf(s: Source, v: View): Component {
    Component(Tag(s.kind), match s.kind
      case Header => if s.name in v.headers then v.headers[s.name] else []
      case Cookie => if s.name in v.cookies then [v.cookies[s.name]] else []
      case RemoteAddr => if v.remote.Some? then [v.remote.value] else []
      case Literal => [s.value])
  }

  function ComponentsOf(ss: seq<Source>, v: View): seq<Component> {
    seq(|ss|, i requires 0 <= i < |ss| => ComponentOf(ss[i], v))
  }

  predicate AnyPresent(ss: seq<Source>, v: View) {
    exists i | 0 <= i < |ss| :: ComponentOf(ss[i], v).values != []
  }

  /** With nothing present the key is the remote address alone. */
  function KeyOf(ss: seq<Source>, v: View): seq<Component> {
    if AnyPresent(ss, v) then ComponentsOf(ss, v)
    else [Component(Tag(RemoteAddr), [if v.remote.Some? then v.remote.value else []])]
  }

  class Digest {
    var fed: Bytes

    constructor ()
      ensures fed == []
    {
      fed := [];
    }

    method Reset()
      modifies this
      ensures fed == []
    {
      fed := [];
    }

    method WriteByte(b: Byte)
      modifies this
      ensures fed == old(fed) + [b]
    {
      fed := fed + [b];
    }

    /** `binary.PutUvarint` into a scratch buffer, then one write. */
    method WriteUvarint(v: nat)
      modifies this
      ensures fed == old(fed) + Uvarint(v)
    {
      var buffer: Bytes, x := [], v;
      while x >= 128
        invariant buffer + Uvarint(x) == Uvarint(v)
      {
        assert (buffer + [x % 128 + 128]) + Uvarint(x / 128) == buffer + ([x % 128 + 128] + Uvarint(x / 128));
        buffer, x := buffer + [x % 128 + 128], x / 128;
      }
      fed := fed + (buffer + [x]);
    }

    method WriteString(s: Bytes)
      modifies this
      ensures fed == old(fed) + EncodeString(s)
    {
      WriteUvarint(|s|);
      fed := fed + s;
    }

    method WriteStrings(vs: seq<Bytes>)
      modifies this
      ensures fed == old(fed) + EncodeStrings(vs)
    {
      ghost var start := fed;
      for i := 0 to |vs|
        invariant fed + EncodeStrings(vs[i..]) == start + EncodeStrings(vs)
      {
        assert vs[i..][1..] == vs[i + 1..];
        ghost var before := fed;
        WriteString(vs[i]);
        assert fed + EncodeStrings(vs[i + 1..]) == before + (EncodeString(vs[i]) + EncodeStrings(vs[i + 1..]));
      }
      assert fed + EncodeStrings(vs[|vs|..]) == fed;
    }

    /** One component: tag, presence, count, values. */
    method WriteComponent(tag: Byte, values: seq<Bytes>)
      modifies this
      ensures fed == old(fed) + EncodeComponent(Component(tag, values))
    {
      hide Uvarint, EncodeStrings;
      WriteByte(tag);
      if values == [] {
        WriteByte(0);
        WriteUvarint(0);
        return;
      }
      WriteByte(1);
      WriteUvarint(|values|);
      WriteStrings(values);
    }

    /** `sum64` up to the hash: the bytes fed, and whether the fallback was used. */
    method Extract(ss: seq<Source>, v: View) returns (fallback: bool)
      modifies this
      ensures fed == EncodeKey(KeyOf(ss, v))
      ensures fallback <==> !AnyPresent(ss, v)
    {
      hide EncodeComponent, Uvarint, ComponentOf;
      Reset();
      WriteUvarint(|ss|);
      ghost var all := ComponentsOf(ss, v);
      var anyPresent := false;
      assert all[0..] == all;
      for i := 0 to |ss|
        invariant fed + EncodeComponents(all[i..]) == EncodeKey(all)
        invariant anyPresent <==> exists j | 0 <= j < i :: ComponentOf(ss[j], v).values != []
      {
        var c := ComponentOf(ss[i], v);
        assert all[i..][1..] == all[i + 1..] && all[i] == c;
        ghost var before := fed;
        WriteComponent(c.tag, c.values);
        assert fed + EncodeComponents(all[i + 1..]) == before + (EncodeComponent(c) + EncodeComponents(all[i + 1..]));
        if c.values != [] { anyPresent := true; }
      }
      assert fed + EncodeComponents(all[|ss|..]) == fed;
      if anyPresent { return false; }
      Reset();
      WriteUvarint(1);
      var address: Bytes := if v.remote.Some? then v.remote.value else [];
      WriteComponent(Tag(RemoteAddr), [address]);
      ghost var only := Component(Tag(RemoteAddr), [address]);
      assert EncodeComponents([only]) == EncodeComponent(only) + [];
      fallback := true;
    }
  }

  /** Equal bytes mean equal kinds, presence and values, in order: keys cannot be confused by regrouping values. */
  lemma KeysUnambiguous(ss: seq<Source>, v: View, tt: seq<Source>, w: View)
    requires EncodeKey(KeyOf(ss, v)) == EncodeKey(KeyOf(tt, w))
    ensures KeyOf(ss, v) == KeyOf(tt, w)
    ensures AnyPresent(ss, v) && AnyPresent(tt, w) ==>
              |ss| == |tt| && forall i | 0 <= i < |ss| ::
                ss[i].kind == tt[i].kind && ComponentOf(ss[i], v).values == ComponentOf(tt[i], w).values
  {
    KeyRoundTrip(KeyOf(ss, v));
    KeyRoundTrip(KeyOf(tt, w));
    if AnyPresent(ss, v) && AnyPresent(tt, w) {
      assert |ComponentsOf(ss, v)| == |ss| && |ComponentsOf(tt, w)| == |tt|;
      forall i | 0 <= i < |ss| ensures ComponentOf(ss[i], v) == ComponentOf(tt[i], w) {
        assert ComponentsOf(ss, v)[i] == ComponentsOf(tt, w)[i];
      }
    }
  }

  // ----- the format, and which part of a request each source reads

  /** Seven bits to a byte, low bits first, the high bit set on all but the last. */
  lemma {:induction false} UvarintFormat(v: nat)
    ensures v < 128 ==> Uvarint(v) == [v]
    ensures 128 <= v < 16384 ==> Uvarint(v) == [128 + v % 128, v / 128]
    ensures Uvarint(300) == [0xAC, 0x02]
  {
    assert 300 % 128 == 44 && 300 / 128 == 2;
    assert Uvarint(300) == [300 % 128 + 128] + Uvarint(2);
    if 128 <= v < 16384 { assert Uvarint(v) == [v % 128 + 128] + Uvarint(v / 128); }
  }

  /** A missing source is its tag and two zeros; one short value is its tag, two ones, its length and its bytes. */
  lemma ComponentFormat(tag: Byte, value: Bytes)
    requires |value| < 128
    ensures EncodeComponent(Component(tag, [])) == [tag, 0, 0]
    ensures EncodeComponent(Component(tag, [value])) == [tag, 1, 1, |value|] + value
  {
    UvarintFormat(0);
    UvarintFormat(1);
    UvarintFormat(|value|);
    assert EncodeStrings([value]) == EncodeString(value) + EncodeStrings([]);
  }

  /** The values of one source: the lines of its header, its cookie, the remote address, or its own text. */
  lemma SourceMeaning(s: Source, v: View)
    ensures s.kind == Header && s.name in v.headers ==> ComponentOf(s, v) == Component(1, v.headers[s.name])
    ensures s.kind == Header && s.name !in v.headers ==> ComponentOf(s, v) == Component(1, [])
    ensures s.kind == Cookie && s.name in v.cookies ==> ComponentOf(s, v) == Component(2, [v.cookies[s.name]])
    ensures s.kind == Cookie && s.name !in v.cookies ==> ComponentOf(s, v) == Component(2, [])
    ensures s.kind == RemoteAddr && v.remote.Some? ==> ComponentOf(s, v) == Component(3, [v.remote.value])
    ensures s.kind == RemoteAddr && v.remote.None? ==> ComponentOf(s, v) == Component(3, [])
    ensures s.kind == Literal ==> ComponentOf(s, v) == Component(4, [s.value])
  {
  }

  /** The source has something to read. */
  predicate Reads(s: Source, v: View) {
    match s.kind
    case Header => s.name in v.headers && v.headers[s.name] != []
    case Cookie => s.name in v.cookies
    case RemoteAddr => v.remote.Some?
    case Literal => true
  }

  ghost predicate Readable(ss: seq<Source>, v: View) {
    exists i :: 0 <= i < |ss| && Reads(ss[i], v)
  }

  /** The decoded key lists the sources in order; with nothing to read it is the remote address, or nothing, alone. */
  lemma KeyMeaning(ss: seq<Source>, v: View)
    ensures AnyPresent(ss, v) <==> Readable(ss, v)
    ensures Readable(ss, v) ==>
              var key := DecodeKey(EncodeKey(KeyOf(ss, v)));
              && key.Some? && |key.value| == |ss|
              && forall i | 0 <= i < |ss| :: key.value[i] == ComponentOf(ss[i], v)
    ensures !Readable(ss, v) ==>
              DecodeKey(EncodeKey(KeyOf(ss, v))) ==
              Some([Component(3, [if v.remote.Some? then v.remote.value else []])])
  {
    KeyRoundTrip(KeyOf(ss, v));
    hide EncodeKey, DecodeKey;
    forall i | 0 <= i < |ss| ensures Reads(ss[i], v) <==> ComponentOf(ss[i], v).values != [] {
    }
  }
}
