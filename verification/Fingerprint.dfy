/**
 The bytes fed to the reuse fingerprints (internal/upstream/fingerprint.go).

 A fingerprint is fed field by field.  Fixed-width and length-prefixed fields are
 self-delimiting, so the bytes determine the policy and the transport key.  SHA-256
 itself is not modelled.
 */
module Fingerprint {
  import opened Wrappers
  import opened HashKey

  // ----- big-endian integers

  function Pow256(n: nat): (p: nat)
    ensures p > 0
  {
    if n == 0 then 1 else 256 * Pow256(n - 1)
  }

  function BigEndian(v: nat, n: nat): (r: Bytes)
    ensures |r| == n
  {
    if n == 0 then [] else BigEndian(v / 256, n - 1) + [v % 256]
  }

  function FromBigEndian(b: Bytes): nat {
    if b == [] then 0 else FromBigEndian(b[..|b| - 1]) * 256 + b[|b| - 1]
  }

  lemma {:induction false} BigEndianRoundTrip(v: nat, n: nat)
    requires v < Pow256(n)
    ensures FromBigEndian(BigEndian(v, n)) == v
  {
    if n > 0 {
      BigEndianRoundTrip(v / 256, n - 1);
      assert BigEndian(v, n)[..n - 1] == BigEndian(v / 256, n - 1);
    }
  }

  // ----- fields

  datatype Field =
    | U8(byte: Byte)
    | U16(short: nat)
    | U64(word: nat)
    | Raw(digest: Bytes)
    | Text(text: Bytes)
    | Shorts(shorts: seq<nat>)

  /** The ranges of the program's types. */
  predicate ValidField(f: Field) {
    match f
    case U8(_) => true
    case U16(v) => v < Pow256(2)
    case U64(v) => v < Pow256(8)
    case Raw(d) => |d| == 32
    case Text(t) => |t| < Pow256(8)
    case Shorts(vs) => |vs| < Pow256(8) && forall i | 0 <= i < |vs| :: vs[i] < Pow256(2)
  }

  function EncodeShorts(vs: seq<nat>): Bytes {
    if vs == [] then [] else BigEndian(vs[0], 2) + EncodeShorts(vs[1..])
  }

  function EncodeField(f: Field): Bytes {
    match f
    case U8(b) => [b]
    case U16(v) => BigEndian(v, 2)
    case U64(v) => BigEndian(v, 8)
    case Raw(d) => d
    case Text(t) => BigEndian(|t|, 8) + t
    case Shorts(vs) => BigEndian(|vs|, 8) + EncodeShorts(vs)
  }

  predicate SameKind(f: Field, g: Field) {
    && (f.U8? <==> g.U8?) && (f.U16? <==> g.U16?) && (f.U64? <==> g.U64?)
    && (f.Raw? <==> g.Raw?) && (f.Text? <==> g.Text?) && (f.Shorts? <==> g.Shorts?)
  }

  lemma SamePrefix(a: Bytes, r: Bytes, b: Bytes, s: Bytes)
    requires |a| == |b| && a + r == b + s
    ensures a == b && r == s
  {
    assert a == (a + r)[..|a|] && b == (b + s)[..|b|];
    assert r == (a + r)[|a|..] && s == (b + s)[|b|..];
  }

  lemma {:induction false} BigEndianPrefix(v: nat, r: Bytes, w: nat, s: Bytes, n: nat)
    requires v < Pow256(n) && w < Pow256(n) && BigEndian(v, n) + r == BigEndian(w, n) + s
    ensures v == w && r == s
  {
    SamePrefix(BigEndian(v, n), r, BigEndian(w, n), s);
    BigEndianRoundTrip(v, n);
    BigEndianRoundTrip(w, n);
  }

  lemma {:induction false} ShortsPrefix(vs: seq<nat>, r: Bytes, ws: seq<nat>, s: Bytes)
    requires |vs| == |ws| && EncodeShorts(vs) + r == EncodeShorts(ws) + s
    requires forall i | 0 <= i < |vs| :: vs[i] < Pow256(2) && ws[i] < Pow256(2)
    ensures vs == ws && r == s
  {
    hide BigEndian, Pow256;
    if vs == [] {
      assert EncodeShorts(vs) + r == r && EncodeShorts(ws) + s == s;
    } else {
      assert EncodeShorts(vs) + r == BigEndian(vs[0], 2) + (EncodeShorts(vs[1..]) + r);
      assert EncodeShorts(ws) + s == BigEndian(ws[0], 2) + (EncodeShorts(ws[1..]) + s);
      BigEndianPrefix(vs[0], EncodeShorts(vs[1..]) + r, ws[0], EncodeShorts(ws[1..]) + s, 2);
      ShortsPrefix(vs[1..], r, ws[1..], s);
      assert vs == [vs[0]] + vs[1..] && ws == [ws[0]] + ws[1..];
    }
  }

  /** A counted body: equal encodings have equal counts, and the bodies follow. */
  lemma {:induction false} CountedPrefix(n: nat, body: Bytes, r: Bytes, m: nat, other: Bytes, s: Bytes)
    requires n < Pow256(8) && m < Pow256(8)
    requires BigEndian(n, 8) + body + r == BigEndian(m, 8) + other + s
    ensures n == m && body + r == other + s
  {
    hide BigEndian, Pow256;
    assert BigEndian(n, 8) + body + r == BigEndian(n, 8) + (body + r);
    assert BigEndian(m, 8) + other + s == BigEndian(m, 8) + (other + s);
    BigEndianPrefix(n, body + r, m, other + s, 8);
  }

  /** A field is self-delimiting: what follows it cannot change how it reads. */
  lemma FieldPrefix(f: Field, r: Bytes, g: Field, s: Bytes)
    requires ValidField(f) && ValidField(g) && SameKind(f, g) && EncodeField(f) + r == EncodeField(g) + s
    ensures f == g && r == s
  {
    hide BigEndian, Pow256, EncodeShorts;
    match f {
      case U8(_) => SamePrefix(EncodeField(f), r, EncodeField(g), s);
      case Raw(_) => SamePrefix(EncodeField(f), r, EncodeField(g), s);
      case U16(v) => BigEndianPrefix(v, r, g.short, s, 2);
      case U64(v) => BigEndianPrefix(v, r, g.word, s, 8);
      case Text(t) => CountedPrefix(|t|, t, r, |g.text|, g.text, s);
        SamePrefix(t, r, g.text, s);
      case Shorts(vs) => CountedPrefix(|vs|, EncodeShorts(vs), r, |g.shorts|, EncodeShorts(g.shorts), s);
        ShortsPrefix(vs, r, g.shorts, s);
    }
  }

  // ----- records of fields

  function EncodeAll(fs: seq<Field>): Bytes {
    if fs == [] then [] else EncodeField(fs[0]) + EncodeAll(fs[1..])
  }

  predicate ValidFields(fs: seq<Field>) {
    forall i | 0 <= i < |fs| :: ValidField(fs[i])
  }

  predicate SameShape(fs: seq<Field>, gs: seq<Field>) {
    |fs| == |gs| && forall i | 0 <= i < |fs| :: SameKind(fs[i], gs[i])
  }

  lemma {:induction false} EncodeConcat(fs: seq<Field>, gs: seq<Field>)
    ensures EncodeAll(fs + gs) == EncodeAll(fs) + EncodeAll(gs)
  {
    hide EncodeField;
    if fs == [] {
      assert fs + gs == gs;
    } else {
      EncodeConcat(fs[1..], gs);
      assert (fs + gs)[1..] == fs[1..] + gs;
      assert EncodeField(fs[0]) + (EncodeAll(fs[1..]) + EncodeAll(gs)) ==
          (EncodeField(fs[0]) + EncodeAll(fs[1..])) + EncodeAll(gs);
    }
  }

  lemma {:induction false} RecordPrefix(fs: seq<Field>, r: Bytes, gs: seq<Field>, s: Bytes)
    requires ValidFields(fs) && ValidFields(gs) && SameShape(fs, gs) && EncodeAll(fs) + r == EncodeAll(gs) + s
    ensures fs == gs && r == s
  {
    hide EncodeField, ValidField, SameKind;
    if fs == [] {
      assert EncodeAll(fs) + r == r && EncodeAll(gs) + s == s;
    } else {
      assert EncodeAll(fs) + r == EncodeField(fs[0]) + (EncodeAll(fs[1..]) + r);
      assert EncodeAll(gs) + s == EncodeField(gs[0]) + (EncodeAll(gs[1..]) + s);
      FieldPrefix(fs[0], EncodeAll(fs[1..]) + r, gs[0], EncodeAll(gs[1..]) + s);
      RecordPrefix(fs[1..], r, gs[1..], s);
      assert fs == [fs[0]] + fs[1..] && gs == [gs[0]] + gs[1..];
    }
  }

  // ----- health keys

  /** Durations and counts are 64-bit signed; they are written in two's complement. */
  type Int64 = v: int | -0x8000_0000_0000_0000 <= v < 0x8000_0000_0000_0000

  type Short = v: nat | v < 65536

  function Word(v: Int64): nat {
    if v < 0 then v + 0x1_0000_0000_0000_0000 else v
  }

  function Flag(b: bool): Byte {
    if b then 1 else 0
  }

  datatype ActivePolicy = ActivePolicy(
    kind: Bytes, timeout: Int64, healthyInterval: Int64, unhealthyInterval: Int64,
    healthySuccesses: Byte, httpFailures: Byte, transportFailures: Byte, timeouts: Byte,
    healthyStatuses: seq<Short>, unhealthyStatuses: seq<Short>, path: Bytes, host: Bytes)

  datatype PassivePolicy = PassivePolicy(
    httpFailures: Byte, transportFailures: Byte, timeouts: Byte, unhealthyStatuses: seq<Short>)

  datatype HealthPolicy = HealthPolicy(active: Option<ActivePolicy>, passive: Option<PassivePolicy>)

  datatype TransportKey = TransportKey(
    scheme: Bytes, serverName: Bytes, protocol: Bytes,
    dialTimeout: Int64, responseHeaderTimeout: Int64, idleConnectionTimeout: Int64,
    maxIdleConnections: Int64, maxIdleConnectionsPerHost: Int64,
    tlsEnabled: bool, tlsPolicyVersion: Byte, trustSystem: bool,
    trustFingerprint: Bytes, clientFingerprint: Bytes, minTLSVersion: Short, disableCompression: bool)

  predicate Short8(b: Bytes) { |b| < Pow256(8) }

  /** Lengths below 2^64 and 32-byte digests: what the program's types guarantee. */
  predicate ValidActive(p: ActivePolicy) {
    Short8(p.kind) && Short8(p.path) && Short8(p.host) && |p.healthyStatuses| < Pow256(8)
        && |p.unhealthyStatuses| < Pow256(8)
  }

  predicate ValidPolicy(p: HealthPolicy) {
    && (p.active.Some? ==> ValidActive(p.active.value))
    && (p.passive.Some? ==> |p.passive.value.unhealthyStatuses| < Pow256(8))
  }

  predicate ValidTransport(t: TransportKey) {
    Short8(t.scheme) && Short8(t.serverName) && Short8(t.protocol) && |t.trustFingerprint| == 32
        && |t.clientFingerprint| == 32
  }

  function ActiveFields(p: ActivePolicy): seq<Field> {
    [Text(p.kind), U64(Word(p.timeout)), U64(Word(p.healthyInterval)), U64(Word(p.unhealthyInterval)),
     U8(p.healthySuccesses), U8(p.httpFailures), U8(p.transportFailures), U8(p.timeouts),
     Shorts(p.healthyStatuses), Shorts(p.unhealthyStatuses), Text(p.path), Text(p.host)]
  }

  function PassiveFields(p: PassivePolicy): seq<Field> {
    [U8(p.httpFailures), U8(p.transportFailures), U8(p.timeouts), Shorts(p.unhealthyStatuses)]
  }

  function TransportFields(t: TransportKey): seq<Field> {
    [Text(t.scheme), Text(t.serverName), Text(t.protocol),
     U64(Word(t.dialTimeout)), U64(Word(t.responseHeaderTimeout)), U64(Word(t.idleConnectionTimeout)),
     U64(Word(t.maxIdleConnections)), U64(Word(t.maxIdleConnectionsPerHost)),
     U8(Flag(t.tlsEnabled)), U8(t.tlsPolicyVersion), U8(Flag(t.trustSystem)),
     Raw(t.trustFingerprint), Raw(t.clientFingerprint), U16(t.minTLSVersion), U8(Flag(t.disableCompression))]
  }

  function OptionalFields<T>(v: Option<T>, fields: T -> seq<Field>): seq<Field> {
    match v
    case Some(x) => [U8(1)] + fields(x)
    case None => [U8(0)]
  }

  function ActivePart(p: HealthPolicy): seq<Field> { OptionalFields(p.active, ActiveFields) }

  function PassivePart(p: HealthPolicy): seq<Field> { OptionalFields(p.passive, PassiveFields) }

  /** The domain tag that starts every health key. */
  const HEALTH_TAG: Bytes :=
    [103, 97, 116, 101, 119, 97, 121, 47, 104, 101, 97, 108, 116, 104, 45, 107, 101, 121, 47, 118, 50]

  function HealthFields(p: HealthPolicy, t: TransportKey): seq<Field> {
    [Text(HEALTH_TAG)] + (ActivePart(p) + (PassivePart(p) + TransportFields(t)))
  }

  lemma Powers()
    ensures Pow256(2) == 65536 && Pow256(8) == 0x1_0000_0000_0000_0000
  {
    assert Pow256(1) == 256;
    assert Pow256(3) == 256 * 65536;
    assert Pow256(4) == 0x1_0000_0000;
    assert Pow256(6) == 0x1_0000_0000_0000;
  }

  lemma ActiveValid(p: ActivePolicy)
    requires ValidActive(p)
    ensures ValidFields(ActiveFields(p))
  {
    Powers();
  }

  lemma PassiveValid(p: PassivePolicy)
    requires |p.unhealthyStatuses| < Pow256(8)
    ensures ValidFields(PassiveFields(p))
  {
    Powers();
  }

  lemma TransportValid(t: TransportKey)
    requires ValidTransport(t)
    ensures ValidFields(TransportFields(t))
  {
    Powers();
  }

  lemma ActiveInjective(p: ActivePolicy, q: ActivePolicy)
    requires ActiveFields(p) == ActiveFields(q)
    ensures p == q
  {
    var a, b := ActiveFields(p), ActiveFields(q);
    assert a[0] == b[0] && a[1] == b[1] && a[2] == b[2] && a[3] == b[3] && a[4] == b[4] && a[5] == b[5]
        && a[6] == b[6] && a[7] == b[7] && a[8] == b[8] && a[9] == b[9] && a[10] == b[10] && a[11] == b[11];
  }

  lemma PassiveInjective(p: PassivePolicy, q: PassivePolicy)
    requires PassiveFields(p) == PassiveFields(q)
    ensures p == q
  {
    var a, b := PassiveFields(p), PassiveFields(q);
    assert a[0] == b[0] && a[1] == b[1] && a[2] == b[2] && a[3] == b[3];
  }

  lemma TransportInjective(t: TransportKey, u: TransportKey)
    requires TransportFields(t) == TransportFields(u)
    ensures t == u
  {
    var a, b := TransportFields(t), TransportFields(u);
    assert a[0] == b[0] && a[1] == b[1] && a[2] == b[2] && a[3] == b[3] && a[4] == b[4] && a[5] == b[5]
        && a[6] == b[6] && a[7] == b[7] && a[8] == b[8] && a[9] == b[9] && a[10] == b[10] && a[11] == b[11]
        && a[12] == b[12] && a[13] == b[13] && a[14] == b[14];
  }

  /** An optional part is self-delimiting too: its presence byte says which record follows. */
  lemma OptionalPrefix<T>(v: Option<T>, r: Bytes, w: Option<T>, s: Bytes, fields: T -> seq<Field>)
    requires v.Some? ==> ValidFields(fields(v.value))
    requires w.Some? ==> ValidFields(fields(w.value))
    requires v.Some? && w.Some? ==> SameShape(fields(v.value), fields(w.value))
    requires EncodeAll(OptionalFields(v, fields)) + r == EncodeAll(OptionalFields(w, fields)) + s
    ensures v.Some? == w.Some? && (v.Some? ==> fields(v.value) == fields(w.value)) && r == s
  {
    hide ValidField, SameKind;
    FirstByte(OptionalFields(v, fields), r);
    FirstByte(OptionalFields(w, fields), s);
    if v.Some? && w.Some? {
      var fs, gs := fields(v.value), fields(w.value);
      assert ([U8(1)] + fs)[1..] == fs && ([U8(1)] + gs)[1..] == gs;
      RecordPrefix(fs, r, gs, s);
    }
  }

  lemma {:induction false} FirstByte(fs: seq<Field>, r: Bytes)
    requires fs != [] && fs[0].U8?
    ensures (EncodeAll(fs) + r)[0] == fs[0].byte && (EncodeAll(fs) + r)[1..] == EncodeAll(fs[1..]) + r
  {
    assert EncodeAll(fs) + r == [fs[0].byte] + (EncodeAll(fs[1..]) + r);
  }

  lemma HealthBytesParts(p: HealthPolicy, t: TransportKey)
    ensures EncodeAll(HealthFields(p, t)) ==
            EncodeField(Text(HEALTH_TAG)) +
              (EncodeAll(ActivePart(p)) + (EncodeAll(PassivePart(p)) + EncodeAll(TransportFields(t))))
  {
    hide EncodeField, ActivePart, PassivePart, TransportFields;
    var tag, rest := Text(HEALTH_TAG), ActivePart(p) + (PassivePart(p) + TransportFields(t));
    EncodeConcat([tag], rest);
    assert EncodeAll([tag]) == EncodeField(tag) + [];
    EncodeConcat(ActivePart(p), PassivePart(p) + TransportFields(t));
    EncodeConcat(PassivePart(p), TransportFields(t));
  }

  /** Equal bytes mean the same health policy and the same transport. */
  lemma HealthKeyUnambiguous(p: HealthPolicy, t: TransportKey, q: HealthPolicy, u: TransportKey)
    requires ValidPolicy(p) && ValidPolicy(q) && ValidTransport(t) && ValidTransport(u)
    requires EncodeAll(HealthFields(p, t)) == EncodeAll(HealthFields(q, u))
    ensures p == q && t == u
  {
    hide EncodeField, EncodeAll, ValidFields, Pow256, ActiveFields, PassiveFields, TransportFields, SameShape;
    HealthBytesParts(p, t);
    HealthBytesParts(q, u);
    var restP := EncodeAll(PassivePart(p)) + EncodeAll(TransportFields(t));
    var restQ := EncodeAll(PassivePart(q)) + EncodeAll(TransportFields(u));
    SamePrefix(EncodeField(Text(HEALTH_TAG)), EncodeAll(ActivePart(p)) + restP,
               EncodeField(Text(HEALTH_TAG)), EncodeAll(ActivePart(q)) + restQ);
    ActiveAlike(p, restP, q, restQ);
    PassiveAlike(p, EncodeAll(TransportFields(t)), q, EncodeAll(TransportFields(u)));
    TransportAlike(t, u);
  }

  lemma ActiveAlike(p: HealthPolicy, r: Bytes, q: HealthPolicy, s: Bytes)
    requires ValidPolicy(p) && ValidPolicy(q) && EncodeAll(ActivePart(p)) + r == EncodeAll(ActivePart(q)) + s
    ensures p.active == q.active && r == s
  {
    hide EncodeAll, ValidFields, Pow256;
    if p.active.Some? { ActiveValid(p.active.value); }
    if q.active.Some? { ActiveValid(q.active.value); }
    OptionalPrefix(p.active, r, q.active, s, ActiveFields);
    if p.active.Some? { ActiveInjective(p.active.value, q.active.value); }
  }

  lemma PassiveAlike(p: HealthPolicy, r: Bytes, q: HealthPolicy, s: Bytes)
    requires ValidPolicy(p) && ValidPolicy(q) && EncodeAll(PassivePart(p)) + r == EncodeAll(PassivePart(q)) + s
    ensures p.passive == q.passive && r == s
  {
    hide EncodeAll, ValidFields, Pow256;
    if p.passive.Some? { PassiveValid(p.passive.value); }
    if q.passive.Some? { PassiveValid(q.passive.value); }
    OptionalPrefix(p.passive, r, q.passive, s, PassiveFields);
    if p.passive.Some? { PassiveInjective(p.passive.value, q.passive.value); }
  }

  lemma TransportAlike(t: TransportKey, u: TransportKey)
    requires ValidTransport(t) && ValidTransport(u) && EncodeAll(TransportFields(t)) == EncodeAll(TransportFields(u))
    ensures t == u
  {
    hide EncodeAll, ValidFields, Pow256;
    TransportValid(t);
    TransportValid(u);
    assert EncodeAll(TransportFields(t)) + [] == EncodeAll(TransportFields(u)) + [];
    RecordPrefix(TransportFields(t), [], TransportFields(u), []);
    TransportInjective(t, u);
  }

  /** Feeds a record to the digest field by field. */
  method Feed(d: Digest, fs: seq<Field>)
    modifies d
    ensures d.fed == old(d.fed) + EncodeAll(fs)
  {
    hide EncodeField;
    ghost var start := d.fed;
    for i := 0 to |fs|
      invariant d.fed + EncodeAll(fs[i..]) == start + EncodeAll(fs)
    {
      assert fs[i..][1..] == fs[i + 1..];
      ghost var before := d.fed;
      d.fed := d.fed + EncodeField(fs[i]);
      assert d.fed + EncodeAll(fs[i + 1..]) == before + (EncodeField(fs[i]) + EncodeAll(fs[i + 1..]));
    }
    assert d.fed + EncodeAll(fs[|fs|..]) == d.fed;
  }

  /** `makeHealthKey` up to the hash. */
  method FeedHealthKey(d: Digest, p: HealthPolicy, t: TransportKey)
    requires d.fed == []
    modifies d
    ensures d.fed == EncodeAll(HealthFields(p, t))
  {
    hide EncodeAll, EncodeField, ActiveFields, PassiveFields, TransportFields;
    Feed(d, [Text(HEALTH_TAG)]);
    if p.active.Some? {
      Feed(d, [U8(1)] + ActiveFields(p.active.value));
    } else {
      Feed(d, [U8(0)]);
    }
    if p.passive.Some? {
      Feed(d, [U8(1)] + PassiveFields(p.passive.value));
    } else {
      Feed(d, [U8(0)]);
    }
    Feed(d, TransportFields(t));
    HealthBytesParts(p, t);
    TagBytes();
    ghost var a, b, c, e := EncodeAll([Text(HEALTH_TAG)]), EncodeAll(ActivePart(p)), EncodeAll(PassivePart(p)),
                                      EncodeAll(TransportFields(t));
    assert (((([] + a) + b) + c) + e) == a + (b + (c + e));
  }

  lemma TagBytes()
    ensures EncodeAll([Text(HEALTH_TAG)]) == EncodeField(Text(HEALTH_TAG))
  {
    hide EncodeField;
    assert EncodeAll([Text(HEALTH_TAG)]) == EncodeField(Text(HEALTH_TAG)) + [];
  }

  // ----- budget keys

  datatype BudgetPolicy = BudgetPolicy(ratioPer1000: Short, burst: Short, maxInflight: Short)

  function BudgetFields(p: BudgetPolicy): seq<Field> {
    [U16(p.ratioPer1000), U16(p.burst), U16(p.maxInflight)]
  }

  /** Equal bytes mean the same retry budget. */
  lemma BudgetKeyUnambiguous(p: BudgetPolicy, q: BudgetPolicy)
    requires EncodeAll(BudgetFields(p)) == EncodeAll(BudgetFields(q))
    ensures p == q
  {
    Powers();
    assert ValidFields(BudgetFields(p)) && ValidFields(BudgetFields(q));
    hide EncodeAll, ValidFields, Pow256;
    assert EncodeAll(BudgetFields(p)) + [] == EncodeAll(BudgetFields(q)) + [];
    RecordPrefix(BudgetFields(p), [], BudgetFields(q), []);
    var a, b := BudgetFields(p), BudgetFields(q);
    assert a[0] == b[0] && a[1] == b[1] && a[2] == b[2];
  }
}
