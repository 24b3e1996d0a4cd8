/** The message codec: length framing, padding to 32 (section 6.3 of RFC 5652 with k = 32), and the
    signed envelope.  AES with Base64, UTF-8, SHA1 and XML are parameters bound by the laws below. */
module MessageCodec {
  import opened Wrappers

  newtype byte = x: int | 0 <= x < 256
  type Bytes = seq<byte>

  const BLOCK_SIZE := 32
  const PREFIX_LENGTH := 16

  /** `seal` is AES-CBC then Base64, `unseal` its reverse; `wrap` is the XML envelope, with readers of its
      four parts; `carries` says which texts the template carries unchanged (no markup in them). */
  datatype Crypto = Crypto(
    seal: Bytes -> Option<string>,
    unseal: string -> Option<Bytes>,
    encode: string -> Bytes,
    decode: Bytes -> Option<string>,
    sign: (string, string, string, string) -> Option<string>,
    wrap: (string, string, string, string) -> string,
    unwrap: string -> Option<string>,
    signatureOf: string -> Option<string>,
    timestampOf: string -> Option<string>,
    nonceOf: string -> Option<string>,
    carries: string -> bool)
  {
    /** AES needs whole blocks of 16 bytes; sealed texts and signatures pass through the envelope unchanged. */
    ghost predicate Lawful() {
      SealsOpen() && TextsDecode() && SignaturesAreCarried() && EnvelopesOpen()
    }

    ghost predicate SealsOpen() {
      forall p | |p| % 16 == 0 :: seal(p).Some? && unseal(seal(p).value) == Some(p)
    }

    ghost predicate TextsDecode() {
      forall s :: decode(encode(s)) == Some(s)
    }

    ghost predicate EnvelopesOpen() {
      forall p, g, t, n | seal(p).Some? && carries(g) && carries(t) && carries(n) :: Opens(seal(p).value, g, t, n)
    }

    predicate Opens(s: string, g: string, t: string, n: string) {
      var post := wrap(s, g, t, n);
      unwrap(post) == Some(s) && signatureOf(post) == Some(g) && timestampOf(post) == Some(t) && nonceOf(post) == Some(n)
    }

    ghost predicate SignaturesAreCarried() {
      forall k, t, n, s | sign(k, t, n, s).Some? :: carries(sign(k, t, n, s).value)
    }
  }

  // ---- The laws can be met ----

  /** Three bytes for each character. */
  function Spell(s: string): Bytes {
    if s == "" then [] else
      var n := s[0] as int;
      [(n / 0x1_0000) as byte, (n / 0x100 % 0x100) as byte, (n % 0x100) as byte] + Spell(s[1..])
  }

  lemma {:induction false} SpellingIsUnique(s: string, t: string)
    requires Spell(s) == Spell(t)
    ensures s == t
  {
    if s != "" && t != "" {
      SameSpelling(s[0] as int, t[0] as int, Spell(s), Spell(t));
      assert Spell(s)[3..] == Spell(s[1..]) && Spell(t)[3..] == Spell(t[1..]);
      SpellingIsUnique(s[1..], t[1..]);
      assert s == [s[0]] + s[1..] && t == [t[0]] + t[1..];
    }
  }

  lemma SameSpelling(n: nat, m: nat, a: Bytes, b: Bytes)
    requires n < 0x110000 && m < 0x110000 && a == b && |a| >= 3
    requires a[0] as int == n / 0x1_0000 && a[1] as int == n / 0x100 % 0x100 && a[2] as int == n % 0x100
    requires b[0] as int == m / 0x1_0000 && b[1] as int == m / 0x100 % 0x100 && b[2] as int == m % 0x100
    ensures n == m
  {
    FromThreeBytes(n);
    FromThreeBytes(m);
  }

  lemma FromThreeBytes(n: nat)
    ensures n == n / 0x1_0000 * 0x1_0000 + n / 0x100 % 0x100 * 0x100 + n % 0x100
  {
    var q := n / 0x100;
    assert q == q / 0x100 * 0x100 + q % 0x100;
    assert q / 0x100 == n / 0x1_0000;
  }

  /** A character for each byte. */
  function Letters(p: Bytes): (s: string)
    ensures |s| == |p| && forall i | 0 <= i < |p| :: s[i] as int == p[i] as int
  {
    seq(|p|, i requires 0 <= i < |p| => (p[i] as int) as char)
  }

  lemma LettersAreUnique(p: Bytes, q: Bytes)
    requires Letters(p) == Letters(q)
    ensures p == q
  {
    forall i | 0 <= i < |p| ensures p[i] == q[i] {
      assert Letters(p)[i] as int == p[i] as int && Letters(q)[i] as int == q[i] as int;
    }
  }

  ghost function Unspell(b: Bytes): Option<string> {
    if exists s :: Spell(s) == b then (var s :| Spell(s) == b; Some(s)) else None
  }

  ghost function Unletter(s: string): Option<Bytes> {
    if exists p :: Letters(p) == s then (var p :| Letters(p) == s; Some(p)) else None
  }

  lemma UnspellInverts(s: string)
    ensures Unspell(Spell(s)) == Some(s)
  {
    var t :| Spell(t) == Spell(s) && Unspell(Spell(s)) == Some(t);
    SpellingIsUnique(t, s);
  }

  lemma UnletterInverts(p: Bytes)
    ensures Unletter(Letters(p)) == Some(p)
  {
    var q :| Letters(q) == Letters(p) && Unletter(Letters(p)) == Some(q);
    LettersAreUnique(q, p);
  }

  ghost function SampleCrypto(): Crypto {
    Crypto(p => Some(Letters(p)), s => Unletter(s), s => Spell(s), b => Unspell(b), (k, t, n, s) => Some("x"),
           (s, g, t, n) => g + t + n + s, x => if |x| < 3 then None else Some(x[3..]), x => PartOf(x, 0), x => PartOf(x, 1), x => PartOf(x, 2),
           s => |s| == 1)
  }

  /** The sample envelope carries single letters. */
  function PartOf(x: string, i: nat): Option<string> {
    if i < |x| then Some([x[i]]) else None
  }

  lemma SampleEnvelope(s: string, g: string, t: string, n: string)
    requires |g| == 1 && |t| == 1 && |n| == 1
    ensures var x := g + t + n + s; |x| >= 3 && x[3..] == s && PartOf(x, 0) == Some(g) && PartOf(x, 1) == Some(t) && PartOf(x, 2) == Some(n)
  {
    var x := g + t + n + s;
    assert g == [x[0]] && t == [x[1]] && n == [x[2]];
  }

  lemma SampleEnvelopesOpen()
    ensures SampleCrypto().EnvelopesOpen() && SampleCrypto().SignaturesAreCarried()
  {
    hide PartOf, Letters, Unletter, Spell, Unspell;
    forall s, g, t, n | SampleCrypto().carries(g) && SampleCrypto().carries(t) && SampleCrypto().carries(n)
      ensures SampleCrypto().Opens(s, g, t, n)
    {
      SampleEnvelope(s, g, t, n);
    }
    hide SampleCrypto, Crypto.Opens;
    SampleSigns();
  }

  lemma SampleSigns()
    ensures SampleCrypto().SignaturesAreCarried()
  {
  }

  lemma SampleSealsOpen()
    ensures SampleCrypto().SealsOpen()
  {
    hide Letters, Unletter;
    forall p: Bytes ensures Unletter(Letters(p)) == Some(p) {
      UnletterInverts(p);
    }
  }

  lemma SampleTextsDecode()
    ensures SampleCrypto().TextsDecode()
  {
    hide Spell, Unspell;
    forall s ensures Unspell(Spell(s)) == Some(s) {
      UnspellInverts(s);
    }
  }

  lemma LawfulCryptoExists()
    ensures exists c: Crypto :: c.Lawful()
  {
    SampleSealsOpen();
    SampleTextsDecode();
    SampleEnvelopesOpen();
    hide SampleCrypto, Crypto.SealsOpen, Crypto.TextsDecode, Crypto.EnvelopesOpen, Crypto.SignaturesAreCarried;
    assert SampleCrypto().Lawful();
  }

  datatype Code = EncryptAES | DecryptAES | IllegalBuffer | ValidateCorpid | ValidateSignature | ComputeSignature | ParseXml

  /** `Raises` is an exception that leaves the function. */
  datatype Outcome<T> = Returns(value: T) | Fails(code: Code) | Raises

  function Repeat(b: byte, n: nat): (s: Bytes)
    ensures |s| == n && forall i | 0 <= i < n :: s[i] == b
  {
    seq(n, _ => b)
  }

  /** Padding as the encoder adds it: never nothing, and bytes of their own count. */
  function Pad(text: Bytes): Bytes {
    var amount := BLOCK_SIZE - |text| % BLOCK_SIZE;
    var amountToPad := if amount == 0 then BLOCK_SIZE else amount;
    text + Repeat(amountToPad as byte, amountToPad)
  }

  /** A length as four bytes, most significant first. */
  function BigEndian(n: nat): (b: Bytes)
    requires n < 0x1_0000_0000
    ensures |b| == 4
  {
    [(n / 0x100_0000) as byte, (n / 0x1_0000 % 0x100) as byte, (n / 0x100 % 0x100) as byte, (n % 0x100) as byte]
  }

  function FromBigEndian(b: Bytes): (n: nat)
    requires |b| == 4
    ensures n < 0x1_0000_0000
  {
    b[0] as nat * 0x100_0000 + b[1] as nat * 0x1_0000 + b[2] as nat * 0x100 + b[3] as nat
  }

  lemma FromBigEndianInverts(n: nat)
    requires n < 0x1_0000_0000
    ensures FromBigEndian(BigEndian(n)) == n
  {
    var a := n / 0x100;
    var b := a / 0x100;
    assert n / 0x1_0000 == b && n / 0x100_0000 == b / 0x100;
    assert n == a * 0x100 + n % 0x100 && a == b * 0x100 + a % 0x100 && b == b / 0x100 * 0x100 + b % 0x100;
  }

  lemma BigEndianInverts(b: Bytes)
    requires |b| == 4
    ensures BigEndian(FromBigEndian(b)) == b
  {
    var n := FromBigEndian(b);
    assert n / 0x100_0000 == b[0] as int;
    assert n / 0x1_0000 == b[0] as int * 0x100 + b[1] as int;
    assert n / 0x100 == (b[0] as int * 0x100 + b[1] as int) * 0x100 + b[2] as int;
  }

  /** A slice whose bounds are clipped to the sequence, as Python's are. */
  function Clip<T>(s: seq<T>, start: nat, stop: int): seq<T> {
    var hi := if stop < 0 then 0 else if stop > |s| then |s| else stop;
    if start >= hi then [] else s[start..hi]
  }

  function Frame(prefix: Bytes, text: Bytes, receiveId: Bytes): Bytes
    requires |text| < 0x1_0000_0000
  {
    prefix + BigEndian(|text|) + text + receiveId
  }

  /** The message framed, padded and sealed; the 16 random digits are an argument, and `htonl` overflows at 2^32. */
  function Encrypt(c: Crypto, prefix: Bytes, text: string, receiveId: string): Outcome<string> {
    var body := c.encode(text);
    if |body| >= 0x1_0000_0000 then Raises
    else
      var sealed := c.seal(Pad(Frame(prefix, body, c.encode(receiveId))));
      if sealed.Some? then Returns(sealed.value) else Fails(EncryptAES)
  }

  /** The unframing inside `Prpcrypt.decrypt`: a pad byte of 0 makes `[16:-0]`, which is empty. */
  function Unframe(c: Crypto, plain: Bytes, receiveId: string): Outcome<Bytes> {
    if plain == [] then Fails(IllegalBuffer)
    else
      var pad := plain[|plain| - 1] as int;
      var content := Clip(plain, PREFIX_LENGTH, if pad == 0 then 0 else |plain| - pad);
      if |content| < 4 then Fails(IllegalBuffer)
      else
        var xmlLength := FromBigEndian(content[..4]);
        var from := c.decode(Clip(content, xmlLength + 4, |content|));
        if from.None? then Raises
        else if from.value != receiveId then Fails(ValidateCorpid)
        else Returns(Clip(content, 4, xmlLength + 4))
  }

  function Decrypt(c: Crypto, text: string, receiveId: string): Outcome<Bytes> {
    var plain := c.unseal(text);
    if plain.None? then Fails(DecryptAES) else Unframe(c, plain.value, receiveId)
  }

  /** Encryption never meets a partial block: the padded length is a positive multiple of 32, and
      the last byte says how many bytes of padding there are. */
  lemma PaddingFillsBlocks(text: Bytes)
    ensures |Pad(text)| > 0 && |Pad(text)| % BLOCK_SIZE == 0 && |Pad(text)| % 16 == 0
    ensures var n := |Pad(text)| - |text|; 1 <= n <= BLOCK_SIZE && Pad(text)[|Pad(text)| - 1] as int == n
    ensures Pad(text)[..|text|] == text
  {
    var amount := BLOCK_SIZE - |text| % BLOCK_SIZE;
    FilledBlocks(|text|);
    assert Pad(text) == text + Repeat(amount as byte, amount);
  }

  lemma FilledBlocks(n: nat)
    ensures var m := n + BLOCK_SIZE - n % BLOCK_SIZE; m % BLOCK_SIZE == 0 && m % 16 == 0
  {
    assert n == 32 * (n / 32) + n % 32;
    WholeBlocksOf(n / 32 + 1);
  }

  lemma WholeBlocksOf(k: nat)
    ensures 32 * k % 32 == 0 && 32 * k % 16 == 0
  {
    var q, p := 32 * k / 32, 32 * k / 16;
    assert q >= k && q <= k;
    assert p >= 2 * k && p <= 2 * k;
  }

  /** Exactly which plaintexts are accepted for a receive id, and with which text: a 16-byte
      prefix, a length, the text, the receive id, and a tail that ends in its own length.  The
      length need only match the text when a receive id follows it. */
  ghost predicate IsFraming(c: Crypto, plain: Bytes, receiveId: string, text: Bytes, prefix: Bytes, n: nat, id: Bytes, tail: Bytes) {
    && n < 0x1_0000_0000 && plain == prefix + BigEndian(n) + text + id + tail
    && |prefix| == PREFIX_LENGTH && tail != [] && tail[|tail| - 1] as int == |tail|
    && c.decode(id) == Some(receiveId)
    && (|text| == n || (|text| < n && id == []))
  }

  lemma FramingIsAccepted(c: Crypto, plain: Bytes, receiveId: string, text: Bytes, prefix: Bytes, n: nat, id: Bytes, tail: Bytes)
    requires IsFraming(c, plain, receiveId, text, prefix, n, id, tail)
    ensures Unframe(c, plain, receiveId) == Returns(text)
  {
    var content := BigEndian(n) + text + id;
    assert plain == prefix + content + tail;
    assert plain[|plain| - 1] == tail[|tail| - 1];
    assert Clip(plain, PREFIX_LENGTH, |plain| - |tail|) == content;
    FromBigEndianInverts(n);
    assert content[..4] == BigEndian(n);
    assert Clip(content, n + 4, |content|) == id;
    assert Clip(content, 4, n + 4) == text;
  }

  lemma AcceptedIsFraming(c: Crypto, plain: Bytes, receiveId: string, text: Bytes)
    returns (prefix: Bytes, n: nat, id: Bytes, tail: Bytes)
    requires Unframe(c, plain, receiveId) == Returns(text)
    ensures IsFraming(c, plain, receiveId, text, prefix, n, id, tail)
  {
    hide BigEndian, FromBigEndian;
    var pad := plain[|plain| - 1] as int;
    var content := plain[PREFIX_LENGTH..|plain| - pad];
    prefix, n, tail := plain[..PREFIX_LENGTH], FromBigEndian(content[..4]), plain[|plain| - pad..];
    id := Clip(content, n + 4, |content|);
    BigEndianInverts(content[..4]);
    ClipsMakeWhole(content, n);
    ThreeParts(plain, PREFIX_LENGTH, |plain| - pad);
    Regroup(prefix, BigEndian(n), text, id, tail);
  }

  lemma ClipsMakeWhole<T>(s: seq<T>, n: nat)
    requires |s| >= 4
    ensures s == s[..4] + Clip(s, 4, n + 4) + Clip(s, n + 4, |s|)
  {
  }

  lemma ThreeParts<T>(s: seq<T>, i: nat, j: nat)
    requires i <= j <= |s|
    ensures s == s[..i] + s[i..j] + s[j..]
  {
  }

  lemma Regroup<T>(a: seq<T>, b: seq<T>, c: seq<T>, d: seq<T>, e: seq<T>)
    ensures a + (b + c + d) + e == a + b + c + d + e
  {
  }

  lemma AcceptsExactlyFramings(c: Crypto, plain: Bytes, receiveId: string, text: Bytes)
    ensures Unframe(c, plain, receiveId) == Returns(text)
       <==> exists prefix, n, id, tail :: IsFraming(c, plain, receiveId, text, prefix, n, id, tail)
  {
    if Unframe(c, plain, receiveId) == Returns(text) {
      var prefix, n, id, tail := AcceptedIsFraming(c, plain, receiveId, text);
    }
    if prefix, n, id, tail :| IsFraming(c, plain, receiveId, text, prefix, n, id, tail) {
      FramingIsAccepted(c, plain, receiveId, text, prefix, n, id, tail);
    }
  }

  /** Decrypting what was encrypted returns the text to its own receiver, and the receive-id error
      to every other. */
  lemma DecryptInvertsEncrypt(c: Crypto, prefix: Bytes, text: string, receiveId: string, other: string)
    requires c.Lawful() && |prefix| == PREFIX_LENGTH && |c.encode(text)| < 0x1_0000_0000
    ensures var sealed := Encrypt(c, prefix, text, receiveId);
            && sealed.Returns?
            && Decrypt(c, sealed.value, other) == if other == receiveId then Returns(c.encode(text)) else Fails(ValidateCorpid)
  {
    var body, id := c.encode(text), c.encode(receiveId);
    var framed := Frame(prefix, body, id);
    var plain := Pad(framed);
    PaddingFillsBlocks(framed);
    var tail := plain[|framed|..];
    assert plain == prefix + BigEndian(|body|) + body + id + tail;
    assert IsFraming(c, plain, receiveId, body, prefix, |body|, id, tail);
    FramingIsAccepted(c, plain, receiveId, body, prefix, |body|, id, tail);
  }

  // ---- The signed envelope ----

  /** The sealed message, signed and wrapped; a failed encryption is used before it is checked, and raises. */
  function EncryptMsg(c: Crypto, token: string, receiveId: string, reply: string, nonce: string, timestamp: string, prefix: Bytes)
    : Outcome<string>
  {
    var sealed := Encrypt(c, prefix, reply, receiveId);
    if !sealed.Returns? then Raises
    else
      var signature := c.sign(token, timestamp, nonce, sealed.value);
      if signature.None? then Fails(ComputeSignature)
      else Returns(c.wrap(sealed.value, signature.value, timestamp, nonce))
  }

  function DecryptMsg(c: Crypto, token: string, receiveId: string, post: string, msgSignature: string, timestamp: string, nonce: string)
    : Outcome<Bytes>
  {
    var sealed := c.unwrap(post);
    if sealed.None? then Fails(ParseXml)
    else
      var signature := c.sign(token, timestamp, nonce, sealed.value);
      if signature.None? then Fails(ComputeSignature)
      else if signature.value != msgSignature then Fails(ValidateSignature)
      else Decrypt(c, sealed.value, receiveId)
  }

  /** With working cryptography packing raises exactly for a text of 2^32 bytes or more, and for others it
      returns a message exactly if the sealed text can be signed. */
  lemma PackingRaisesExactly(c: Crypto, token: string, receiveId: string, reply: string, nonce: string, timestamp: string, prefix: Bytes)
    requires c.Lawful()
    ensures EncryptMsg(c, token, receiveId, reply, nonce, timestamp, prefix).Raises? <==> |c.encode(reply)| >= 0x1_0000_0000
    ensures Encrypt(c, prefix, reply, receiveId) != Fails(EncryptAES)
    ensures EncryptMsg(c, token, receiveId, reply, nonce, timestamp, prefix).Returns?
       <==> |c.encode(reply)| < 0x1_0000_0000 && c.sign(token, timestamp, nonce, Encrypt(c, prefix, reply, receiveId).value).Some?
  {
    if |c.encode(reply)| < 0x1_0000_0000 {
      PaddingFillsBlocks(Frame(prefix, c.encode(reply), c.encode(receiveId)));
    }
  }

  lemma EnvelopeOpens(c: Crypto, p: Bytes, token: string, timestamp: string, nonce: string, sealed: string)
    requires c.Lawful() && c.carries(timestamp) && c.carries(nonce) && c.seal(p) == Some(sealed)
    requires c.sign(token, timestamp, nonce, sealed).Some?
    ensures c.Opens(sealed, c.sign(token, timestamp, nonce, sealed).value, timestamp, nonce)
  {
    hide Crypto.Opens;
  }

  /** A packed message unpacks to its text under the signature of its sealed text, and under no other. */
  lemma DecryptMsgInvertsEncryptMsg(c: Crypto, token: string, receiveId: string, reply: string, nonce: string, timestamp: string,
                                    prefix: Bytes, signature: string)
    requires c.Lawful() && |prefix| == PREFIX_LENGTH && |c.encode(reply)| < 0x1_0000_0000 && c.carries(timestamp) && c.carries(nonce)
    requires EncryptMsg(c, token, receiveId, reply, nonce, timestamp, prefix).Returns?
    ensures DecryptMsg(c, token, receiveId, EncryptMsg(c, token, receiveId, reply, nonce, timestamp, prefix).value,
                       signature, timestamp, nonce)
         == var sealed := Encrypt(c, prefix, reply, receiveId).value;
            if c.sign(token, timestamp, nonce, sealed) == Some(signature) then Returns(c.encode(reply)) else Fails(ValidateSignature)
  {
    DecryptInvertsEncrypt(c, prefix, reply, receiveId, receiveId);
    PackedOpens(c, token, receiveId, reply, nonce, timestamp, prefix);
    hide Crypto.Lawful, Encrypt, Decrypt, Frame, Pad;
  }

  lemma PackedOpens(c: Crypto, token: string, receiveId: string, reply: string, nonce: string, timestamp: string, prefix: Bytes)
    requires c.Lawful() && c.carries(timestamp) && c.carries(nonce)
    requires EncryptMsg(c, token, receiveId, reply, nonce, timestamp, prefix).Returns?
    ensures var sealed := Encrypt(c, prefix, reply, receiveId);
            && sealed.Returns? && c.sign(token, timestamp, nonce, sealed.value).Some?
            && c.Opens(sealed.value, c.sign(token, timestamp, nonce, sealed.value).value, timestamp, nonce)
  {
    var sealed := Encrypt(c, prefix, reply, receiveId).value;
    EnvelopeOpens(c, Pad(Frame(prefix, c.encode(reply), c.encode(receiveId))), token, timestamp, nonce, sealed);
    hide Crypto.Lawful, Crypto.Opens, Frame, Pad;
  }

  /** What a receiver reads out of a packed message is the caller's time stamp and nonce, and the signature
      under which it unpacks to the text. */
  lemma PackedMessageUnpacks(c: Crypto, token: string, receiveId: string, reply: string, nonce: string, timestamp: string, prefix: Bytes)
    requires c.Lawful() && |prefix| == PREFIX_LENGTH && |c.encode(reply)| < 0x1_0000_0000 && c.carries(timestamp) && c.carries(nonce)
    requires EncryptMsg(c, token, receiveId, reply, nonce, timestamp, prefix).Returns?
    ensures var post := EncryptMsg(c, token, receiveId, reply, nonce, timestamp, prefix).value;
            && c.timestampOf(post) == Some(timestamp) && c.nonceOf(post) == Some(nonce) && c.signatureOf(post).Some?
            && DecryptMsg(c, token, receiveId, post, c.signatureOf(post).value, timestamp, nonce) == Returns(c.encode(reply))
  {
    hide Crypto.Lawful, Encrypt, DecryptMsg, Frame, Pad;
    PackedOpens(c, token, receiveId, reply, nonce, timestamp, prefix);
    var sealed := Encrypt(c, prefix, reply, receiveId).value;
    DecryptMsgInvertsEncryptMsg(c, token, receiveId, reply, nonce, timestamp, prefix, c.sign(token, timestamp, nonce, sealed).value);
  }

  /** Which messages are accepted, and with which text: exactly those that hold a sealed text signed with
      the token, the time stamp and the nonce given, which opens to a framing of the text for this receiver. */
  lemma AcceptsExactlySigned(c: Crypto, token: string, receiveId: string, post: string, msgSignature: string, timestamp: string,
                             nonce: string, text: Bytes)
    ensures DecryptMsg(c, token, receiveId, post, msgSignature, timestamp, nonce) == Returns(text)
       <==> exists sealed, plain, prefix, n, id, tail ::
              && c.unwrap(post) == Some(sealed) && c.sign(token, timestamp, nonce, sealed) == Some(msgSignature)
              && c.unseal(sealed) == Some(plain) && IsFraming(c, plain, receiveId, text, prefix, n, id, tail)
  {
    hide Unframe, IsFraming;
    if c.unwrap(post).Some? && c.unseal(c.unwrap(post).value).Some? {
      AcceptsExactlyFramings(c, c.unseal(c.unwrap(post).value).value, receiveId, text);
    }
  }

  // ---- The padding of downloaded files ----

  ghost predicate IsPadded(data: Bytes, d: Bytes, p: byte) {
    1 <= p as int <= 32 && data == d + Repeat(p, p as int)
  }

  /** The end of `_decrypt_file`: accepts exactly well-padded data, and returns what was padded. */
  method StripFilePadding(decrypted: Bytes) returns (r: Option<Bytes>)
    ensures forall d :: r == Some(d) <==> exists p :: IsPadded(decrypted, d, p)
  {
    if |decrypted| == 0 {
      return None;
    }
    var padLength := decrypted[|decrypted| - 1];
    if padLength < 1 || padLength > 32 || padLength as int > |decrypted| {
      PaddingIsLastByte(decrypted);
      return None;
    }
    var start := |decrypted| - padLength as int;
    for i := start to |decrypted|
      invariant forall j | start <= j < i :: decrypted[j] == padLength
    {
      if decrypted[i] != padLength {
        PaddingIsLastByte(decrypted);
        return None;
      }
    }
    assert IsPadded(decrypted, decrypted[..start], padLength);
    PaddingIsLastByte(decrypted);
    return Some(decrypted[..start]);
  }

  lemma PaddingIsLastByte(decrypted: Bytes)
    ensures forall d, p | IsPadded(decrypted, d, p) ::
              && |decrypted| >= p as int && decrypted[|decrypted| - 1] == p && d == decrypted[..|decrypted| - p as int]
              && forall j | |decrypted| - p as int <= j < |decrypted| :: decrypted[j] == p
  {
  }

  /** What `PKCS7Encoder` adds is padding of this kind, so stripping gives back the text. */
  lemma PaddedDataIsWellPadded(text: Bytes)
    ensures exists p :: IsPadded(Pad(text), text, p)
  {
    var p := (|Pad(text)| - |text|) as byte;
    assert IsPadded(Pad(text), text, p);
  }
}
