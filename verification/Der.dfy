/** The walker over DER-encoded data and the extraction of a signature with it. */
module Der {
  import opened Basics
  import opened RangeSets

  // Masks of a tag: class, form and number.
  function MaskConstructed(b: byte): int { b as int / 32 * 32 }
  function MaskTag(b: byte): int { b as int % 128 }
  function MaskAppType(b: byte): int { b as int % 32 }

  const TAG_OCTET_STRING: int := 0x04
  const TAG_OID: int := 0x06
  const TAG_SEQUENCE: int := 0x30
  const TAG_SET: int := 0x31
  const TAG_CONSTRUCTED: int := 0xA0

  // ---------- what the walker reads ----------

  function BigEndian(b: seq<byte>): nat {
    if b == [] then 0 else BigEndian(b[..|b| - 1]) * 256 + b[|b| - 1] as int
  }

  datatype Length = Length(value: nat, rest: seq<byte>)

  /** The length octets at the beginning; more than seven of them are refused. */
  function DecodedLength(s: seq<byte>): (r: Option<Length>)
    ensures r.Some? ==> |r.value.rest| < |s|
  {
    if s == [] then None
    else if s[0] < 128 then Some(Length(s[0] as int, s[1..]))
    else
      var n := MaskTag(s[0]);
      if n >= 8 || |s| - 1 < n then None else Some(Length(BigEndian(s[1..1 + n]), s[1 + n..]))
  }

  /** The contents of the first element, if it is all there. */
  function Contents(s: seq<byte>): Option<seq<byte>> {
    if s == [] then None
    else
      var l := DecodedLength(s[1..]);
      if l.None? || l.value.value > |l.value.rest| then None else Some(l.value.rest[..l.value.value])
  }

  /** What follows the first element. */
  function Following(s: seq<byte>): (r: Option<seq<byte>>)
    ensures r.Some? ==> |r.value| < |s|
  {
    if s == [] then None
    else
      var l := DecodedLength(s[1..]);
      if l.None? || l.value.value > |l.value.rest| then None else Some(l.value.rest[l.value.value..])
  }

  /** What follows the context-specific constructed elements; there must be something. */
  function AfterConstructed(s: seq<byte>): Option<seq<byte>>
    decreases |s|
  {
    if s == [] then None
    else if MaskConstructed(s[0]) != TAG_CONSTRUCTED then Some(s)
    else
      var next := Following(s);
      if next.None? then None else AfterConstructed(next.value)
  }

  function Skip(s: Option<seq<byte>>, n: nat): Option<seq<byte>>
    decreases n
  {
    if n == 0 || s.None? then s else Skip(Following(s.value), n - 1)
  }

  // ---------- the walker ----------

  /** A cursor: `length` bytes of the buffer from `p` on. */
  class Context {
    const buffer: seq<byte>
    var p: nat
    var length: nat
    var appType: int

    ghost predicate Valid()
      reads this
    {
      p + length <= |buffer|
    }

    /** The bytes not read yet. */
    ghost function Rest(): seq<byte>
      requires Valid()
      reads this
    {
      buffer[p..p + length]
    }

    constructor (buffer: seq<byte>, p: nat, length: nat)
      requires p + length <= |buffer|
      ensures Valid() && this.buffer == buffer && this.p == p && this.length == length && appType == 0
    {
      this.buffer, this.p, this.length, appType := buffer, p, length, 0;
    }

    method PeekByte() returns (b: int)
      requires Valid()
      ensures b == if length == 0 then -1 else Rest()[0] as int
    {
      if length == 0 { return -1; }
      return buffer[p] as int;
    }

    /** The cursor never leaves its range: it moves forward and its end stays where it is. */
    method GetByte() returns (b: int)
      requires Valid()
      modifies this`p, this`length
      ensures Valid() && p + length == old(p + length) && p >= old(p)
      ensures b == -1 <==> old(length) == 0
      ensures old(length) > 0 ==> b == old(Rest())[0] as int && Rest() == old(Rest())[1..]
      ensures old(length) == 0 ==> Rest() == []
    {
      if length == 0 { return -1; }
      b := buffer[p] as int;
      p := p + 1;
      length := length - 1;
    }

    method SkipBytes(numSkip: nat) returns (ok: bool)
      requires Valid()
      modifies this`p, this`length
      ensures Valid() && p + length == old(p + length) && p >= old(p)
      ensures ok <==> numSkip <= old(length)
      ensures ok ==> Rest() == old(Rest())[numSkip..]
      ensures !ok ==> Rest() == old(Rest())
    {
      if length < numSkip { return false; }
      p := p + numSkip;
      length := length - numSkip;
      return true;
    }

    method DecodeLength() returns (r: Option<nat>)
      requires Valid()
      modifies this`p, this`length
      ensures Valid() && p + length == old(p + length) && p >= old(p)
      ensures r.Some? <==> DecodedLength(old(Rest())).Some?
      ensures r.Some? ==> DecodedLength(old(Rest())).value == Length(r.value, Rest())
    {
      ghost var s := Rest();
      var numOctets := GetByte();
      if numOctets == -1 { return None; }
      if numOctets < 0x80 { return Some(numOctets); }
      numOctets := numOctets % 128;
      if numOctets >= 8 { return None; }
      var value, i := 0, 0;
      while i < numOctets
        invariant 0 <= i <= numOctets && 0 <= value && Valid() && p + length == old(p + length) && p >= old(p)
        invariant 1 + i <= |s| && Rest() == s[1 + i..] && value == BigEndian(s[1..1 + i])
      {
        var b := GetByte();
        if b == -1 { return None; }
        assert s[1..1 + (i + 1)][..i] == s[1..1 + i];
        value := value * 256 + b;
        i := i + 1;
      }
      return Some(value);
    }

    /** A context for the next bytes, if there are that many; it lies within this one. */
    method Inner(n: nat) returns (child: Option<Context>)
      requires Valid()
      ensures child.Some? <==> n <= length
      ensures child.Some? ==>
                fresh(child.value) && child.value.Valid() && child.value.buffer == buffer && child.value.appType == 0
      ensures child.Some? ==> child.value.p == p && child.value.length == n && child.value.Rest() == Rest()[..n]
    {
      if n > length { return None; }
      var c := new Context(buffer, p, n);
      return Some(c);
    }

    /** An element with the given tag, as asn1_sequence_get and asn1_set_get open it. */
    method TaggedGet(tag: int) returns (child: Option<Context>)
      requires Valid() && (tag == TAG_SEQUENCE || tag == TAG_SET)
      modifies this`p, this`length
      ensures Valid() && p + length == old(p + length) && p >= old(p)
      ensures child.Some? <==> old(Rest()) != [] && MaskTag(old(Rest())[0]) == tag && Contents(old(Rest())).Some?
      ensures child.Some? ==> fresh(child.value) && child.value.Valid() && child.value.buffer == buffer
      ensures child.Some? ==> old(p) <= child.value.p && child.value.p + child.value.length <= p + length
      ensures child.Some? ==> Contents(old(Rest())) == Some(child.value.Rest())
    {
      var b := GetByte();
      // At the end the -1 is masked to 0x7F, which is no tag.
      if b == -1 || b % 128 != tag { return None; }
      var n := DecodeLength();
      if n.None? { return None; }
      child := Inner(n.value);
    }

    method SequenceGet() returns (child: Option<Context>)
      requires Valid()
      modifies this`p, this`length
      ensures Valid() && p + length == old(p + length) && p >= old(p)
      ensures child.Some? <==>
                old(Rest()) != [] && MaskTag(old(Rest())[0]) == TAG_SEQUENCE && Contents(old(Rest())).Some?
      ensures child.Some? ==> fresh(child.value) && child.value.Valid() && child.value.buffer == buffer
      ensures child.Some? ==> old(p) <= child.value.p && child.value.p + child.value.length <= p + length
      ensures child.Some? ==> Contents(old(Rest())) == Some(child.value.Rest())
    {
      child := TaggedGet(TAG_SEQUENCE);
    }

    method SetGet() returns (child: Option<Context>)
      requires Valid()
      modifies this`p, this`length
      ensures Valid() && p + length == old(p + length) && p >= old(p)
      ensures child.Some? <==> old(Rest()) != [] && MaskTag(old(Rest())[0]) == TAG_SET && Contents(old(Rest())).Some?
      ensures child.Some? ==> fresh(child.value) && child.value.Valid() && child.value.buffer == buffer
      ensures child.Some? ==> old(p) <= child.value.p && child.value.p + child.value.length <= p + length
      ensures child.Some? ==> Contents(old(Rest())) == Some(child.value.Rest())
    {
      child := TaggedGet(TAG_SET);
    }

    method ConstructedGet() returns (child: Option<Context>)
      requires Valid()
      modifies this`p, this`length
      ensures Valid() && p + length == old(p + length) && p >= old(p)
      ensures child.Some? <==>
                old(Rest()) != [] && MaskConstructed(old(Rest())[0]) == TAG_CONSTRUCTED && Contents(old(Rest())).Some?
      ensures child.Some? ==> fresh(child.value) && child.value.Valid() && child.value.buffer == buffer
      ensures child.Some? ==> old(p) <= child.value.p && child.value.p + child.value.length <= p + length
      ensures child.Some? ==> Contents(old(Rest())) == Some(child.value.Rest())
      ensures child.Some? ==> child.value.appType == MaskAppType(old(Rest())[0])
    {
      var b := GetByte();
      if b == -1 || b / 32 * 32 != TAG_CONSTRUCTED { return None; }
      var n := DecodeLength();
      if n.None? { return None; }
      child := Inner(n.value);
      if child.Some? { child.value.appType := b % 32; }
    }

    /** Skip one element, whatever its tag. */
    method SequenceNext() returns (ok: bool)
      requires Valid()
      modifies this`p, this`length
      ensures Valid() && p + length == old(p + length) && p >= old(p)
      ensures ok <==> Following(old(Rest())).Some?
      ensures ok ==> Following(old(Rest())) == Some(Rest())
    {
      var b := GetByte();
      if b == -1 { return false; }
      var n := DecodeLength();
      if n.None? { return false; }
      ok := SkipBytes(n.value);
    }

    /** Skip the context-specific constructed elements. */
    method ConstructedSkipAll() returns (ok: bool)
      requires Valid()
      modifies this`p, this`length
      ensures Valid() && p + length == old(p + length) && p >= old(p)
      ensures ok <==> AfterConstructed(old(Rest())).Some?
      ensures ok ==> AfterConstructed(old(Rest())) == Some(Rest())
    {
      hide DecodedLength;
      var b := PeekByte();
      while b != -1 && b / 32 * 32 == TAG_CONSTRUCTED
        invariant Valid() && p + length == old(p + length) && p >= old(p)
        invariant b == if length == 0 then -1 else Rest()[0] as int
        invariant AfterConstructed(Rest()) == AfterConstructed(old(Rest()))
        decreases length
      {
        ghost var before := Rest();
        ok := SequenceNext();
        if !ok { return; }
        FollowingShorter(before);
        b := PeekByte();
      }
      return b != -1;
    }

    /** The contents of an octet string (or an object identifier), which must not be empty. */
    method StringGet(tag: int) returns (r: Option<seq<byte>>)
      requires Valid() && (tag == TAG_OCTET_STRING || tag == TAG_OID)
      modifies this`p, this`length
      ensures Valid() && p + length == old(p + length) && p >= old(p)
      ensures r.Some? <==>
                old(Rest()) != [] && old(Rest())[0] as int == tag && Contents(old(Rest())).Some?
                && Contents(old(Rest())).value != []
      ensures r.Some? ==>
                r == Contents(old(Rest())) && p + |r.value| <= old(p + length) && r.value == buffer[p..p + |r.value|]
    {
      var b := GetByte();
      if b != tag { return None; }
      var n := DecodeLength();
      if n.None? || n.value == 0 || n.value > length { return None; }
      assert Rest()[..n.value] == buffer[p..p + n.value];
      return Some(buffer[p..p + n.value]);
    }
  }

  lemma FollowingShorter(s: seq<byte>)
    ensures Following(s).Some? ==> |Following(s).value| < |s|
  {
  }

  // ---------- extracting a signature ----------

  function IfTag(s: Option<seq<byte>>, tag: int): Option<seq<byte>> {
    if s.None? || s.value == [] || MaskTag(s.value[0]) != tag then None else Contents(s.value)
  }

  function IfConstructed(s: Option<seq<byte>>): Option<seq<byte>> {
    if s.None? || s.value == [] || MaskConstructed(s.value[0]) != TAG_CONSTRUCTED then None else Contents(s.value)
  }

  function IfOctets(s: Option<seq<byte>>): Option<seq<byte>> {
    if s.None? || s.value == [] || s.value[0] as int != TAG_OCTET_STRING then None
    else if Contents(s.value).None? || Contents(s.value).value == [] then None
    else Contents(s.value)
  }

  function Then(s: Option<seq<byte>>): Option<seq<byte>> {
    if s.None? then None else AfterConstructed(s.value)
  }

  /** The contents of the SignedData, and the signature in it. */
  function SignedData(der: seq<byte>): Option<seq<byte>> {
    IfTag(IfConstructed(Skip(IfTag(Some(der), TAG_SEQUENCE), 1)), TAG_SEQUENCE)
  }

  function Signature(der: seq<byte>): Option<seq<byte>> {
    IfOctets(Skip(IfTag(IfTag(Then(Skip(SignedData(der), 3)), TAG_SET), TAG_SEQUENCE), 4))
  }

  ghost predicate LiesAt(der: seq<byte>, sig: seq<byte>, at: nat) {
    at + |sig| <= |der| && sig == der[at..at + |sig|]
  }

  /** Skip n elements. */
  method SkipElements(c: Context, n: nat) returns (ok: bool)
    requires c.Valid()
    modifies c`p, c`length
    ensures c.Valid() && c.p + c.length == old(c.p + c.length) && c.p >= old(c.p)
    ensures ok <==> Skip(Some(old(c.Rest())), n).Some?
    ensures ok ==> Skip(Some(old(c.Rest())), n) == Some(c.Rest())
  {
    hide Following;
    var i := n;
    while i > 0
      invariant 0 <= i <= n && c.Valid() && c.p + c.length == old(c.p + c.length) && c.p >= old(c.p)
      invariant Skip(Some(old(c.Rest())), n) == Skip(Some(c.Rest()), i)
    {
      ok := c.SequenceNext();
      if !ok { return; }
      i := i - 1;
    }
    return true;
  }

  /** The context of the SignedData, three levels down. */
  method OpenSignedData(ctx: Context) returns (data: Option<Context>)
    requires ctx.Valid()
    modifies ctx`p, ctx`length
    ensures data.Some? <==> SignedData(old(ctx.Rest())).Some?
    ensures data.Some? ==> fresh(data.value) && data.value.Valid() && data.value.buffer == ctx.buffer
    ensures data.Some? ==> SignedData(old(ctx.Rest())) == Some(data.value.Rest())
  {
    hide Contents, Following, DecodedLength, Skip;
    SkipNone(1);
    var pkcs7Seq := ctx.SequenceGet();
    if pkcs7Seq.None? { return None; }
    var ok := SkipElements(pkcs7Seq.value, 1);
    if !ok { return None; }
    var signedDataApp := pkcs7Seq.value.ConstructedGet();
    if signedDataApp.None? { return None; }
    data := signedDataApp.value.SequenceGet();
  }

  /** read_pkcs7: the signature's bytes, which lie in the input. */
  method ReadPkcs7(der: seq<byte>) returns (r: Option<seq<byte>>)
    ensures r == Signature(der)
    ensures r.Some? ==> r.value != [] && exists at: nat :: LiesAt(der, r.value, at)
  {
    hide Contents, Following, AfterConstructed, DecodedLength, Skip, SignedData;
    SkipNone(3);
    SkipNone(4);
    var ctx := new Context(der, 0, |der|);
    assert ctx.Rest() == der;
    var signedDataSeq := OpenSignedData(ctx);
    if signedDataSeq.None? { return None; }
    var ok := SkipElements(signedDataSeq.value, 3);
    if !ok { return None; }
    ok := signedDataSeq.value.ConstructedSkipAll();
    if !ok { return None; }
    var sigSet := signedDataSeq.value.SetGet();
    if sigSet.None? { return None; }
    var sigSeq := sigSet.value.SequenceGet();
    if sigSeq.None? { return None; }
    ok := SkipElements(sigSeq.value, 4);
    if !ok { return None; }
    r := sigSeq.value.StringGet(TAG_OCTET_STRING);
    if r.Some? { assert LiesAt(der, r.value, sigSeq.value.p); }
  }

  lemma SkipNone(n: nat)
    ensures Skip(None, n) == None
  {
  }

  // ---------- encoding ----------

  /** How a length is written: in one octet, or in so many after the first (section 8.1.3 of X.690). */
  datatype Form = Short | Long(octets: nat)

  function Power256(k: nat): nat {
    if k == 0 then 1 else 256 * Power256(k - 1)
  }

  ghost predicate FormFits(n: nat, f: Form) {
    match f
    case Short => n < 128
    case Long(k) => 1 <= k <= 7 && n < Power256(k)
  }

  function WriteBigEndian(n: nat, k: nat): (b: seq<byte>)
    ensures |b| == k
  {
    if k == 0 then [] else WriteBigEndian(n / 256, k - 1) + [(n % 256) as byte]
  }

  lemma {:induction false} BigEndianWrite(n: nat, k: nat)
    requires n < Power256(k)
    ensures BigEndian(WriteBigEndian(n, k)) == n
  {
    hide WriteBigEndian, BigEndian;
    if k > 0 {
      BigEndianWrite(n / 256, k - 1);
      LastOctet(n, k);
    } else {
      NoOctets(n);
    }
  }

  lemma NoOctets(n: nat)
    ensures BigEndian(WriteBigEndian(n, 0)) == 0
  {
  }

  lemma LastOctet(n: nat, k: nat)
    requires k > 0
    ensures BigEndian(WriteBigEndian(n, k)) == BigEndian(WriteBigEndian(n / 256, k - 1)) * 256 + n % 256
  {
    assert WriteBigEndian(n, k)[..k - 1] == WriteBigEndian(n / 256, k - 1);
  }

  function EncodeLength(n: nat, f: Form): seq<byte>
    requires FormFits(n, f)
  {
    match f
    case Short => [n as byte]
    case Long(k) => [(128 + k) as byte] + WriteBigEndian(n, k)
  }

  /** Octet i of a number, the most significant one first. */
  lemma {:induction false} OctetOfNumber(n: nat, k: nat, i: nat)
    requires i < k
    ensures Power256(k - 1 - i) > 0 && WriteBigEndian(n, k)[i] as int == n / Power256(k - 1 - i) % 256
  {
    PowerPositive(k - 1 - i);
    if i < k - 1 {
      OctetOfNumber(n / 256, k - 1, i);
      DivTwice(n, Power256(k - 2 - i));
    }
  }

  lemma {:induction false} PowerPositive(k: nat)
    ensures Power256(k) > 0
  {
    if k > 0 { PowerPositive(k - 1); }
  }

  /** Lengths as octets: 300 in the long form, 5 in the short one. */
  lemma LengthOctets()
    ensures EncodeLength(300, Long(2)) == [0x82, 0x01, 0x2C] && EncodeLength(5, Short) == [0x05]
  {
    assert WriteBigEndian(1, 1) == WriteBigEndian(0, 0) + [1];
    assert WriteBigEndian(300, 2) == WriteBigEndian(1, 1) + [44];
  }

  lemma DecodeShort(n: nat, rest: seq<byte>)
    requires n < 128
    ensures DecodedLength([n as byte] + rest) == Some(Length(n, rest))
  {
    assert ([n as byte] + rest)[1..] == rest;
  }

  lemma LongTag(k: nat)
    requires 1 <= k <= 7
    ensures var t := (128 + k) as byte; t >= 128 && MaskTag(t) == k
  {
  }

  lemma LongSlices(t: byte, b: seq<byte>, rest: seq<byte>)
    ensures var s, k := [t] + b + rest, |b|;
            |s| == 1 + k + |rest| && s[0] == t && s[1..1 + k] == b && s[1 + k..] == rest
  {
  }

  lemma DecodeLong(b: seq<byte>, rest: seq<byte>)
    requires 1 <= |b| <= 7
    ensures DecodedLength([(128 + |b|) as byte] + b + rest) == Some(Length(BigEndian(b), rest))
  {
    hide BigEndian, MaskTag;
    LongTag(|b|);
    LongSlices((128 + |b|) as byte, b, rest);
  }

  lemma DecodeEncoded(n: nat, f: Form, rest: seq<byte>)
    requires FormFits(n, f)
    ensures DecodedLength(EncodeLength(n, f) + rest) == Some(Length(n, rest))
  {
    hide DecodedLength, BigEndian, WriteBigEndian, Power256;
    match f
    case Short => DecodeShort(n, rest);
    case Long(k) =>
      BigEndianWrite(n, k);
      DecodeLong(WriteBigEndian(n, k), rest);
  }

  /** An element with a single-byte tag. */
  datatype Element = Element(tag: byte, form: Form, body: seq<byte>)

  ghost predicate ElementOk(e: Element) {
    FormFits(|e.body|, e.form)
  }

  function Encode(e: Element): (s: seq<byte>)
    requires ElementOk(e)
    ensures s != [] && s[0] == e.tag
  {
    [e.tag] + EncodeLength(|e.body|, e.form) + e.body
  }

  lemma ReadElement(e: Element, rest: seq<byte>)
    requires ElementOk(e)
    ensures Contents(Encode(e) + rest) == Some(e.body) && Following(Encode(e) + rest) == Some(rest)
    ensures (Encode(e) + rest)[0] == e.tag && Encode(e) + rest != []
  {
    hide DecodedLength, EncodeLength;
    var s := Encode(e) + rest;
    assert s[1..] == EncodeLength(|e.body|, e.form) + (e.body + rest);
    DecodeEncoded(|e.body|, e.form, e.body + rest);
    assert (e.body + rest)[..|e.body|] == e.body && (e.body + rest)[|e.body|..] == rest;
  }

  /** Elements one after the other. */
  function EncodeAll(es: seq<Element>): seq<byte>
    requires forall i :: 0 <= i < |es| ==> ElementOk(es[i])
  {
    if es == [] then [] else Encode(es[0]) + EncodeAll(es[1..])
  }

  lemma {:induction false} SkipEncoded(es: seq<Element>, rest: seq<byte>)
    requires forall i :: 0 <= i < |es| ==> ElementOk(es[i])
    ensures Skip(Some(EncodeAll(es) + rest), |es|) == Some(rest)
    decreases |es|
  {
    hide Following, Encode;
    if es == [] {
      assert EncodeAll(es) + rest == rest;
    } else {
      var tail := EncodeAll(es[1..]) + rest;
      assert EncodeAll(es) + rest == Encode(es[0]) + tail;
      ReadElement(es[0], tail);
      SkipEncoded(es[1..], rest);
    }
  }

  lemma {:induction false} SkipConstructedEncoded(es: seq<Element>, rest: seq<byte>)
    requires forall i :: 0 <= i < |es| ==> ElementOk(es[i]) && MaskConstructed(es[i].tag) == TAG_CONSTRUCTED
    requires rest != [] && MaskConstructed(rest[0]) != TAG_CONSTRUCTED
    ensures AfterConstructed(EncodeAll(es) + rest) == Some(rest)
    decreases |es|
  {
    hide Following, Encode;
    if es == [] {
      assert EncodeAll(es) + rest == rest;
    } else {
      var tail := EncodeAll(es[1..]) + rest;
      assert EncodeAll(es) + rest == Encode(es[0]) + tail;
      ReadElement(es[0], tail);
      SkipConstructedEncoded(es[1..], rest);
    }
  }

  // ---------- the message ----------

  /** A CMS message (sections 3, 5.1 and 5.3 of RFC 3852) without signed attributes.  The forms are those
      of the lengths of the constructed elements; what may follow the signature, the first signer and
      the message is left open. */
  datatype Message = Message(
    contentType: Element,
    head: seq<Element>,       // version, digest algorithms, encapsulated content
    optional: seq<Element>,   // certificates and revocation information
    signer: seq<Element>,     // version, signer, digest algorithm, signature algorithm
    signature: Element,
    afterSignature: seq<byte>, moreSigners: seq<byte>,
    signerForm: Form, signersForm: Form, dataForm: Form, contentForm: Form, infoForm: Form,
    after: seq<byte>)

  function SignerInfo(m: Message): Element
    requires AllOk(m.signer) && ElementOk(m.signature)
  {
    Element(0x30, m.signerForm, EncodeAll(m.signer) + (Encode(m.signature) + m.afterSignature))
  }

  function SignerInfos(m: Message): Element
    requires AllOk(m.signer) && ElementOk(m.signature) && ElementOk(SignerInfo(m))
  {
    Element(0x31, m.signersForm, Encode(SignerInfo(m)) + m.moreSigners)
  }

  ghost predicate SignerOk(m: Message) {
    AllOk(m.signer) && ElementOk(m.signature) && ElementOk(SignerInfo(m)) && ElementOk(SignerInfos(m))
  }

  function Data(m: Message): Element
    requires SignerOk(m) && AllOk(m.head) && AllOk(m.optional)
  {
    Element(0x30, m.dataForm, EncodeAll(m.head) + (EncodeAll(m.optional) + Encode(SignerInfos(m))))
  }

  function Content(m: Message): Element
    requires SignerOk(m) && AllOk(m.head) && AllOk(m.optional) && ElementOk(Data(m))
  {
    Element(0xA0, m.contentForm, Encode(Data(m)))
  }

  ghost predicate AllOk(es: seq<Element>) {
    forall i :: 0 <= i < |es| ==> ElementOk(es[i])
  }

  function Info(m: Message): Element
    requires SignerOk(m) && AllOk(m.head) && AllOk(m.optional) && ElementOk(Data(m)) && ElementOk(Content(m))
             && ElementOk(m.contentType)
  {
    Element(0x30, m.infoForm, Encode(m.contentType) + Encode(Content(m)))
  }

  ghost predicate MessageOk(m: Message) {
    && SignerOk(m) && AllOk(m.head) && AllOk(m.optional) && ElementOk(Data(m)) && ElementOk(Content(m))
    && ElementOk(m.contentType)
    && ElementOk(Info(m))
    && |m.head| == 3 && |m.signer| == 4
    && (forall i :: 0 <= i < |m.optional| ==> MaskConstructed(m.optional[i].tag) == TAG_CONSTRUCTED)
    && m.signature.tag == 0x04 && m.signature.body != []
  }

  function EncodeMessage(m: Message): seq<byte>
    requires MessageOk(m)
  {
    Encode(Info(m)) + m.after
  }

  /** The SignedData contents of a message, and after them its signature. */
  lemma ReachData(m: Message)
    requires MessageOk(m)
    ensures SignedData(EncodeMessage(m)) == Some(Data(m).body)
  {
    hide Contents, Following, Encode, EncodeAll, Data, SignerOk;
    var info, content, data := Info(m), Content(m), Data(m);
    ReadElement(info, m.after);
    ReadElement(m.contentType, Encode(content));
    ReadElement(content, []);
    assert Encode(content) + [] == Encode(content);
    ReadElement(data, []);
    assert Encode(data) + [] == Encode(data);
    assert Skip(Some(info.body), 1) == Skip(Following(info.body), 0);
    TagsOf();
    DataTag(m);
  }

  lemma DataTag(m: Message)
    requires MessageOk(m)
    ensures Data(m).tag == 0x30
  {
  }

  lemma TagsOf()
    ensures MaskTag(0x30) == TAG_SEQUENCE && MaskTag(0x31) == TAG_SET && MaskConstructed(0xA0) == TAG_CONSTRUCTED
    ensures MaskConstructed(0x31) != TAG_CONSTRUCTED
  {
  }

  /** Extraction inverts encoding. */
  lemma SignatureIsRead(m: Message)
    requires MessageOk(m)
    ensures Signature(EncodeMessage(m)) == Some(m.signature.body)
  {
    hide Contents, Following, Encode, EncodeAll, SignedData, Skip, AfterConstructed, EncodeMessage;
    ReachData(m);
    TagsOf();
    var infos, info := SignerInfos(m), SignerInfo(m);
    SkipEncoded(m.head, EncodeAll(m.optional) + Encode(infos));
    SkipConstructedEncoded(m.optional, Encode(infos));
    ReadElement(infos, []);
    assert Encode(infos) + [] == Encode(infos);
    ReadElement(info, m.moreSigners);
    SkipEncoded(m.signer, Encode(m.signature) + m.afterSignature);
    ReadElement(m.signature, m.afterSignature);
  }
}
