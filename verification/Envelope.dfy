/** The password-mode envelope: a 40-byte header, then counter-numbered AEAD frames. */
module Envelope {
  import opened Common
  import opened LittleEndian
  import opened Bits

  const MAGIC: Bytes := [0x54, 0x46, 0x45, 0x31]
  const VERSION: Byte := 1
  const SCHEME_PASSWORD: Byte := 1
  const FRAME_SIZE_LOG2: nat := 14
  const FRAME: nat := 16384
  const TAG_LEN: nat := 16
  const SALT_LEN: nat := 16
  const HEADER_LEN: nat := 40

  datatype Params = Params(mKib: nat, t: nat, p: nat)

  ghost predicate ValidParams(params: Params) {
    params.mKib < U32_LIMIT && params.t < U32_LIMIT && params.p < U32_LIMIT
  }

  datatype Error = TooShort | BadMagic | BadVersion | BadScheme | KeyDerivation | AuthFailed(frame: nat)

  /**
   * The foreign primitives. `seal` and `open` take key, nonce, associated data and text; `derive` takes
   * password, salt and parameters and fails on parameters Argon2id rejects.
   */
  datatype Crypto = Crypto(
    seal: (Bytes, Bytes, Bytes, Bytes) -> Bytes,
    open: (Bytes, Bytes, Bytes, Bytes) -> Option<Bytes>,
    derive: (Bytes, Bytes, Params) -> Option<Bytes>)

  function Flag(last: bool): Byte { if last then 1 else 0 }

  /** `make_nonce`: the counter, the last-frame flag, three zero bytes. */
  function MakeNonce(counter: nat, last: bool): (n: Bytes)
    ensures |n| == 12
  {
    LeBytes(counter, 8) + [Flag(last)] + [0, 0, 0]
  }

  function MakeAad(counter: nat, last: bool): (a: Bytes)
    ensures |a| == 9
  {
    LeBytes(counter, 8) + [Flag(last)]
  }

  /** The header with the four bytes `frameField` where the frame size goes. */
  function HeaderWith(params: Params, frameField: Bytes, salt: Bytes): (h: Bytes)
    requires |frameField| == 4 && |salt| == SALT_LEN
    ensures |h| == HEADER_LEN
  {
    MAGIC + [VERSION, SCHEME_PASSWORD, 0, 0] + LeBytes(params.mKib, 4) + LeBytes(params.t, 4)
    + LeBytes(params.p, 4) + frameField + salt
  }

  function Header(params: Params, salt: Bytes): (h: Bytes)
    requires |salt| == SALT_LEN
    ensures |h| == HEADER_LEN
  {
    HeaderWith(params, LeBytes(FRAME_SIZE_LOG2, 4), salt)
  }

  /** `out` in front of what the remaining frames give. */
  function Prepend(out: Bytes, r: Result<Bytes, Error>): Result<Bytes, Error> {
    match r
    case Err(e) => Err(e)
    case Ok(tail) => Ok(out + tail)
  }

  lemma PrependTwice(a: Bytes, b: Bytes, r: Result<Bytes, Error>)
    ensures Prepend(a, Prepend(b, r)) == Prepend(a + b, r)
    ensures Prepend([], r) == r
  {
    if r.Ok? {
      assert a + (b + r.value) == a + b + r.value && [] + r.value == r.value;
    }
  }

  /** The frames of the plaintext that is left, numbered from `counter`. */
  function SealFrames(c: Crypto, key: Bytes, rest: Bytes, counter: nat): Bytes
    decreases |rest|
  {
    if rest == [] then []
    else
      var n := Min(FRAME, |rest|);
      var last := n == |rest|;
      c.seal(key, MakeNonce(counter, last), MakeAad(counter, last), rest[..n])
      + SealFrames(c, key, rest[n..], counter + 1)
  }

  /** `1usize << frame_log`; the shift amount wraps at 64. */
  function FrameSize(frameLog: nat): nat {
    Pow2(frameLog % 64)
  }

  /** Opens the frames that are left; a frame is last when it reaches the end of the envelope. */
  function OpenFrames(c: Crypto, key: Bytes, frameSize: nat, rest: Bytes, counter: nat): Result<Bytes, Error>
    decreases |rest|
  {
    if rest == [] then Ok([])
    else
      var take := if |rest| > frameSize + TAG_LEN then frameSize + TAG_LEN else |rest|;
      var last := take == |rest|;
      match c.open(key, MakeNonce(counter, last), MakeAad(counter, last), rest[..take])
      case None => Err(AuthFailed(counter))
      case Some(text) => Prepend(text, OpenFrames(c, key, frameSize, rest[take..], counter + 1))
  }

  function Encrypt(c: Crypto, password: Bytes, params: Params, salt: Bytes, plaintext: Bytes): Result<Bytes, Error>
    requires |salt| == SALT_LEN
  {
    match c.derive(password, salt, params)
    case None => Err(KeyDerivation)
    case Some(key) => Ok(Header(params, salt) + SealFrames(c, key, plaintext, 0))
  }

  function Decrypt(c: Crypto, password: Bytes, envelope: Bytes): Result<Bytes, Error> {
    if |envelope| < HEADER_LEN then Err(TooShort)
    else if envelope[..4] != MAGIC then Err(BadMagic)
    else if envelope[4] != VERSION then Err(BadVersion)
    else if envelope[5] != SCHEME_PASSWORD then Err(BadScheme)
    else
      var params := Params(FromLe(envelope[8..12]), FromLe(envelope[12..16]), FromLe(envelope[16..20]));
      match c.derive(password, envelope[24..40], params)
      case None => Err(KeyDerivation)
      case Some(key) => OpenFrames(c, key, FrameSize(FromLe(envelope[20..24])), envelope[40..], 0)
  }

  /** `encrypt_password`; the salt stands for the random bytes it draws. */
  method EncryptPassword(c: Crypto, password: Bytes, params: Params, salt: Bytes, plaintext: Bytes)
    returns (r: Result<Bytes, Error>)
    requires |salt| == SALT_LEN
    ensures r == Encrypt(c, password, params, salt, plaintext)
  {
    var derived := c.derive(password, salt, params);
    if derived.None? {
      return Err(KeyDerivation);
    }
    var key := derived.value;
    var header := WriteHeader(params, salt);
    var out := WriteFrames(c, key, plaintext, header);
    return Ok(out);
  }

  method WriteHeader(params: Params, salt: Bytes) returns (out: Bytes)
    requires |salt| == SALT_LEN
    ensures out == Header(params, salt)
  {
    out := MAGIC;
    out := out + [VERSION];
    out := out + [SCHEME_PASSWORD];
    out := out + [0, 0];
    out := out + LeBytes(params.mKib, 4);
    out := out + LeBytes(params.t, 4);
    out := out + LeBytes(params.p, 4);
    out := out + LeBytes(FRAME_SIZE_LOG2, 4);
    out := out + salt;
  }

  /** The frame loop of `encrypt_password`, appending to `out`. */
  method WriteFrames(c: Crypto, key: Bytes, plaintext: Bytes, header: Bytes) returns (out: Bytes)
    ensures out == header + SealFrames(c, key, plaintext, 0)
  {
    hide MakeNonce, MakeAad, SealFrames;
    out := header;
    var counter := 0;
    var total := |plaintext|;
    var offset := 0;
    assert plaintext[0..] == plaintext;
    while offset < total
      invariant 0 <= offset <= total
      invariant out + SealFrames(c, key, plaintext[offset..], counter) == header + SealFrames(c, key, plaintext, 0)
    {
      var end := Min(offset + FRAME, total);
      var isLast := end == total;
      SealAt(c, key, plaintext, offset, counter);
      var ct := c.seal(key, MakeNonce(counter, isLast), MakeAad(counter, isLast), plaintext[offset..end]);
      SeqAssoc(out, ct, SealFrames(c, key, plaintext[end..], counter + 1));
      out := out + ct;
      counter := counter + 1;
      offset := end;
    }
    assert plaintext[offset..] == [];
    NothingToSeal(c, key, counter);
    assert out + [] == out;
  }

  lemma NothingToSeal(c: Crypto, key: Bytes, counter: nat)
    ensures SealFrames(c, key, [], counter) == []
  {
  }

  /** Sealing from `offset` on is sealing one frame and then the rest. */
  lemma SealAt(c: Crypto, key: Bytes, plaintext: Bytes, offset: nat, counter: nat)
    requires offset < |plaintext|
    ensures var end := Min(offset + FRAME, |plaintext|); var last := end == |plaintext|;
            SealFrames(c, key, plaintext[offset..], counter)
            == c.seal(key, MakeNonce(counter, last), MakeAad(counter, last), plaintext[offset..end])
               + SealFrames(c, key, plaintext[end..], counter + 1)
  {
    hide MakeNonce, MakeAad;
    var rest, end := plaintext[offset..], Min(offset + FRAME, |plaintext|);
    assert rest[..end - offset] == plaintext[offset..end] && rest[end - offset..] == plaintext[end..];
  }

  /** `decrypt_password`. */
  method DecryptPassword(c: Crypto, password: Bytes, envelope: Bytes) returns (r: Result<Bytes, Error>)
    ensures r == Decrypt(c, password, envelope)
  {
    if |envelope| < HEADER_LEN {
      return Err(TooShort);
    }
    if envelope[..4] != MAGIC {
      return Err(BadMagic);
    }
    if envelope[4] != VERSION {
      return Err(BadVersion);
    }
    if envelope[5] != SCHEME_PASSWORD {
      return Err(BadScheme);
    }
    var mKib := FromLe(envelope[8..12]);
    var t := FromLe(envelope[12..16]);
    var p := FromLe(envelope[16..20]);
    var frameLog := FromLe(envelope[20..24]);
    var salt := envelope[24..40];
    var derived := c.derive(password, salt, Params(mKib, t, p));
    if derived.None? {
      return Err(KeyDerivation);
    }
    r := ReadFrames(c, derived.value, FrameSize(frameLog), envelope);
  }

  function FrameEnd(envelope: Bytes, pos: nat, frameSize: nat): nat
    requires pos <= |envelope|
  {
    if |envelope| - pos > frameSize + TAG_LEN then pos + frameSize + TAG_LEN else |envelope|
  }

  /** Opening from `pos` on is opening one frame and then the rest. */
  lemma OpenAt(c: Crypto, key: Bytes, frameSize: nat, envelope: Bytes, pos: nat, counter: nat)
    requires pos < |envelope|
    ensures var end := FrameEnd(envelope, pos, frameSize); var last := end == |envelope|;
            OpenFrames(c, key, frameSize, envelope[pos..], counter)
            == match c.open(key, MakeNonce(counter, last), MakeAad(counter, last), envelope[pos..end])
               case None => Err(AuthFailed(counter))
               case Some(text) => Prepend(text, OpenFrames(c, key, frameSize, envelope[end..], counter + 1))
  {
    var rest, end := envelope[pos..], FrameEnd(envelope, pos, frameSize);
    assert rest[..end - pos] == envelope[pos..end] && rest[end - pos..] == envelope[end..];
  }

  /** The frame loop of `decrypt_password`. */
  method ReadFrames(c: Crypto, key: Bytes, frameSize: nat, envelope: Bytes) returns (r: Result<Bytes, Error>)
    requires |envelope| >= HEADER_LEN
    ensures r == OpenFrames(c, key, frameSize, envelope[HEADER_LEN..], 0)
  {
    hide MakeNonce, MakeAad, LeBytes;
    var out: Bytes := [];
    var pos := HEADER_LEN;
    var counter := 0;
    ghost var all := OpenFrames(c, key, frameSize, envelope[pos..], 0);
    PrependTwice([], [], all);
    while pos < |envelope|
      invariant HEADER_LEN <= pos <= |envelope|
      invariant all == Prepend(out, OpenFrames(c, key, frameSize, envelope[pos..], counter))
      decreases |envelope| - pos
    {
      var remaining := |envelope| - pos;
      var take := if remaining > frameSize + TAG_LEN then frameSize + TAG_LEN else remaining;
      var isLast := pos + take == |envelope|;
      OpenAt(c, key, frameSize, envelope, pos, counter);
      var frame := c.open(key, MakeNonce(counter, isLast), MakeAad(counter, isLast), envelope[pos..pos + take]);
      if frame.None? {
        return Err(AuthFailed(counter));
      }
      PrependTwice(out, frame.value, OpenFrames(c, key, frameSize, envelope[pos + take..], counter + 1));
      out := out + frame.value;
      pos := pos + take;
      counter := counter + 1;
    }
    assert envelope[pos..] == [] && out + [] == out;
    return Ok(out);
  }
}
