/** Round trip, size and integrity of the envelope, over an abstract AEAD. */
module EnvelopeTheorems {
  import opened Common
  import opened LittleEndian
  import opened Bits
  import opened Envelope

  // ----- The header

  lemma HeaderSlices(m: Bytes, t: Bytes, p: Bytes, frameField: Bytes, salt: Bytes, body: Bytes)
    requires |m| == 4 && |t| == 4 && |p| == 4 && |frameField| == 4 && |salt| == SALT_LEN
    ensures var e := MAGIC + [VERSION, SCHEME_PASSWORD, 0, 0] + m + t + p + frameField + salt + body;
            (&& e[..4] == MAGIC && e[4] == VERSION && e[5] == SCHEME_PASSWORD
             && e[8..12] == m && e[12..16] == t && e[16..20] == p
             && e[20..24] == frameField && e[24..40] == salt && e[40..] == body)
  {
  }

  lemma HeaderFields(params: Params, frameField: Bytes, salt: Bytes, body: Bytes)
    requires ValidParams(params) && |frameField| == 4 && |salt| == SALT_LEN
    ensures var e := HeaderWith(params, frameField, salt) + body;
            (&& e[..4] == MAGIC && e[4] == VERSION && e[5] == SCHEME_PASSWORD
             && FromLe(e[8..12]) == params.mKib && FromLe(e[12..16]) == params.t && FromLe(e[16..20]) == params.p
             && e[20..24] == frameField && e[24..40] == salt && e[40..] == body)
  {
    hide LeBytes, FromLe;
    HeaderSlices(LeBytes(params.mKib, 4), LeBytes(params.t, 4), LeBytes(params.p, 4), frameField, salt, body);
    Limits();
    LeRoundTrip(params.mKib, 4);
    LeRoundTrip(params.t, 4);
    LeRoundTrip(params.p, 4);
  }

  /** The written frame-size field reads back as 16 KiB. */
  lemma FrameField()
    ensures FrameSize(FromLe(LeBytes(FRAME_SIZE_LOG2, 4))) == FRAME
  {
    Limits();
    LeRoundTrip(FRAME_SIZE_LOG2, 4);
    assert Pow2(4) == 16 && Pow2(8) == 16 * Pow2(4);
    assert Pow2(12) == 16 * Pow2(8) && Pow2(14) == 4 * Pow2(12);
  }

  /** Under a header that is honest but for its frame-size field, decryption is opening the frames that follow it. */
  lemma DecryptUnderHeader(
      c: Crypto, password: Bytes, params: Params, frameField: Bytes, salt: Bytes, body: Bytes)
    requires ValidParams(params) && |frameField| == 4 && |salt| == SALT_LEN
    requires c.derive(password, salt, params).Some?
    ensures Decrypt(c, password, HeaderWith(params, frameField, salt) + body)
         == OpenFrames(c, c.derive(password, salt, params).value, FrameSize(FromLe(frameField)), body, 0)
  {
    hide HeaderWith, LeBytes, FromLe, OpenFrames, FrameSize;
    HeaderFields(params, frameField, salt, body);
  }

  /** The two reserved header bytes never change the outcome. */
  lemma ReservedBytesIgnored(c: Crypto, password: Bytes, envelope: Bytes, b6: Byte, b7: Byte)
    requires |envelope| >= HEADER_LEN
    ensures Decrypt(c, password, envelope[6 := b6][7 := b7]) == Decrypt(c, password, envelope)
  {
    var e := envelope[6 := b6][7 := b7];
    assert e[..4] == envelope[..4] && e[8..12] == envelope[8..12] && e[12..16] == envelope[12..16];
    assert e[16..20] == envelope[16..20] && e[20..24] == envelope[20..24];
    assert e[24..40] == envelope[24..40] && e[40..] == envelope[40..];
  }

  // ----- The checks

  lemma {:induction false} FramesFailByAuth(c: Crypto, key: Bytes, frameSize: nat, rest: Bytes, counter: nat)
    ensures OpenFrames(c, key, frameSize, rest, counter).Err? ==>
              OpenFrames(c, key, frameSize, rest, counter).error.AuthFailed?
    decreases |rest|
  {
    hide MakeNonce, MakeAad;
    if rest != [] {
      var take := if |rest| > frameSize + TAG_LEN then frameSize + TAG_LEN else |rest|;
      FramesFailByAuth(c, key, frameSize, rest[take..], counter + 1);
    }
  }

  /** Which envelopes are rejected unread, and why: length, then `TFE1`, then version 1, then scheme 1. */
  lemma DecryptRejects(c: Crypto, password: Bytes, envelope: Bytes)
    ensures var r := Decrypt(c, password, envelope); var long := |envelope| >= 40;
            (&& (r == Err(TooShort) <==> !long)
             && (r == Err(BadMagic) <==> long && envelope[..4] != [0x54, 0x46, 0x45, 0x31])
             && (r == Err(BadVersion) <==> long && envelope[..4] == [0x54, 0x46, 0x45, 0x31] && envelope[4] != 1)
             && (r == Err(BadScheme)
                 <==> long && envelope[..4] == [0x54, 0x46, 0x45, 0x31] && envelope[4] == 1 && envelope[5] != 1)
             && (r.Ok? ==> long && envelope[..6] == [0x54, 0x46, 0x45, 0x31, 1, 1]))
  {
    hide OpenFrames, FromLe, FrameSize;
    if |envelope| >= HEADER_LEN {
      var params := Params(FromLe(envelope[8..12]), FromLe(envelope[12..16]), FromLe(envelope[16..20]));
      var key := c.derive(password, envelope[24..40], params);
      if key.Some? {
        FramesFailByAuth(c, key.value, FrameSize(FromLe(envelope[20..24])), envelope[40..], 0);
      }
      assert envelope[..6] == envelope[..4] + [envelope[4], envelope[5]];
    }
  }

  // ----- The frames of a plaintext

  function Frames(plaintext: Bytes): nat {
    (|plaintext| + FRAME - 1) / FRAME
  }

  function FrameText(plaintext: Bytes, i: nat): Bytes
    requires i < Frames(plaintext)
  {
    plaintext[i * FRAME..Min((i + 1) * FRAME, |plaintext|)]
  }

  function NonceOf(plaintext: Bytes, i: nat): Bytes { MakeNonce(i, i + 1 == Frames(plaintext)) }

  function AadOf(plaintext: Bytes, i: nat): Bytes { MakeAad(i, i + 1 == Frames(plaintext)) }

  function SealedFrame(c: Crypto, key: Bytes, plaintext: Bytes, i: nat): Bytes
    requires i < Frames(plaintext)
  {
    c.seal(key, NonceOf(plaintext, i), AadOf(plaintext, i), FrameText(plaintext, i))
  }

  /** The part of the honest body from frame `i` on. */
  function BodyFrom(c: Crypto, key: Bytes, plaintext: Bytes, i: nat): Bytes {
    SealFrames(c, key, plaintext[Min(i * FRAME, |plaintext|)..], i)
  }

  lemma BodyStep(c: Crypto, key: Bytes, plaintext: Bytes, i: nat)
    ensures i >= Frames(plaintext) ==> BodyFrom(c, key, plaintext, i) == []
    ensures i < Frames(plaintext) ==>
              BodyFrom(c, key, plaintext, i) == SealedFrame(c, key, plaintext, i) + BodyFrom(c, key, plaintext, i + 1)
  {
    var rest := plaintext[Min(i * FRAME, |plaintext|)..];
    if i < Frames(plaintext) {
      var n := Min(FRAME, |rest|);
      assert rest[..n] == FrameText(plaintext, i);
      assert rest[n..] == plaintext[Min((i + 1) * FRAME, |plaintext|)..];
    }
  }

  // ----- What is assumed of the AEAD

  /** Section 2.8 of RFC 8439: a ciphertext is 16 bytes longer than its text, and opening inverts sealing. */
  ghost predicate Correct(c: Crypto) {
    forall k, n, a, m ::
      && |c.seal(k, n, a, m)| == |m| + TAG_LEN
      && c.open(k, n, a, c.seal(k, n, a, m)) == Some(m)
  }

  /** The same, for the frames of one plaintext only. */
  ghost predicate OpensHonest(c: Crypto, key: Bytes, plaintext: Bytes) {
    forall i | 0 <= i < Frames(plaintext) ::
      && |SealedFrame(c, key, plaintext, i)| == |FrameText(plaintext, i)| + TAG_LEN
      && c.open(key, NonceOf(plaintext, i), AadOf(plaintext, i), SealedFrame(c, key, plaintext, i))
         == Some(FrameText(plaintext, i))
  }

  ghost predicate IsHonestFrame(c: Crypto, key: Bytes, plaintext: Bytes, n: Bytes, a: Bytes, ct: Bytes) {
    exists i | 0 <= i < Frames(plaintext) ::
      n == NonceOf(plaintext, i) && a == AadOf(plaintext, i) && ct == SealedFrame(c, key, plaintext, i)
  }

  /** Ideal integrity: under this key only the frames sealed for `plaintext` open. */
  ghost predicate OnlyHonestOpens(c: Crypto, key: Bytes, plaintext: Bytes) {
    forall n, a, ct :: c.open(key, n, a, ct).Some? ==> IsHonestFrame(c, key, plaintext, n, a, ct)
  }

  lemma CorrectOpensHonest(c: Crypto, key: Bytes, plaintext: Bytes)
    requires Correct(c)
    ensures OpensHonest(c, key, plaintext)
  {
  }

  // ----- Round trip

  /** The reader recovers the writer's frame boundary and last flag from what remains. */
  lemma OpenOneFrame(c: Crypto, key: Bytes, ct: Bytes, tail: Bytes, counter: nat)
    requires TAG_LEN <= |ct| <= FRAME + TAG_LEN && ct != [] && (tail != [] ==> |ct| == FRAME + TAG_LEN)
    ensures OpenFrames(c, key, FRAME, ct + tail, counter)
         == match c.open(key, MakeNonce(counter, tail == []), MakeAad(counter, tail == []), ct)
            case None => Err(AuthFailed(counter))
            case Some(text) => Prepend(text, OpenFrames(c, key, FRAME, tail, counter + 1))
  {
    assert (ct + tail)[..|ct|] == ct && (ct + tail)[|ct|..] == tail;
  }

  lemma FrameShape(plaintext: Bytes, i: nat)
    requires i < Frames(plaintext)
    ensures 0 < |FrameText(plaintext, i)| <= FRAME
    ensures i + 1 < Frames(plaintext) ==> |FrameText(plaintext, i)| == FRAME
    ensures plaintext[Min(i * FRAME, |plaintext|)..]
         == FrameText(plaintext, i) + plaintext[Min((i + 1) * FRAME, |plaintext|)..]
  {
  }

  lemma {:induction false} OpenInvertsSealFrom(c: Crypto, key: Bytes, plaintext: Bytes, i: nat)
    requires OpensHonest(c, key, plaintext)
    ensures OpenFrames(c, key, FRAME, BodyFrom(c, key, plaintext, i), i)
         == Ok(plaintext[Min(i * FRAME, |plaintext|)..])
    decreases Frames(plaintext) - i
  {
    hide MakeNonce, MakeAad, BodyFrom, FrameText;
    BodyStep(c, key, plaintext, i);
    if i < Frames(plaintext) {
      var ct, tail := SealedFrame(c, key, plaintext, i), BodyFrom(c, key, plaintext, i + 1);
      BodyStep(c, key, plaintext, i + 1);
      FrameShape(plaintext, i);
      assert tail == [] <==> i + 1 == Frames(plaintext) by {
        if i + 1 < Frames(plaintext) {
          assert |SealedFrame(c, key, plaintext, i + 1)| >= TAG_LEN;
        }
      }
      OpenOneFrame(c, key, ct, tail, i);
      OpenInvertsSealFrom(c, key, plaintext, i + 1);
    } else {
      assert plaintext[Min(i * FRAME, |plaintext|)..] == [];
    }
  }

  /** Decrypting an envelope gives back its plaintext, whatever the length. */
  lemma RoundTrip(c: Crypto, password: Bytes, params: Params, salt: Bytes, plaintext: Bytes)
    requires ValidParams(params) && |salt| == SALT_LEN && c.derive(password, salt, params).Some?
    requires OpensHonest(c, c.derive(password, salt, params).value, plaintext)
    ensures Encrypt(c, password, params, salt, plaintext).Ok?
    ensures Decrypt(c, password, Encrypt(c, password, params, salt, plaintext).value) == Ok(plaintext)
  {
    var key := c.derive(password, salt, params).value;
    assert plaintext[0..] == plaintext;
    FrameField();
    DecryptUnderHeader(c, password, params, LeBytes(FRAME_SIZE_LOG2, 4), salt, SealFrames(c, key, plaintext, 0));
    OpenInvertsSealFrom(c, key, plaintext, 0);
  }

  /** Under section 2.8 of RFC 8439 alone, the round trip holds for every key, parameters, salt and plaintext. */
  lemma CorrectRoundTrip(c: Crypto, password: Bytes, params: Params, salt: Bytes, plaintext: Bytes)
    requires Correct(c) && ValidParams(params) && |salt| == SALT_LEN
    ensures Encrypt(c, password, params, salt, plaintext).Ok? <==> c.derive(password, salt, params).Some?
    ensures Encrypt(c, password, params, salt, plaintext).Ok? ==>
              Decrypt(c, password, Encrypt(c, password, params, salt, plaintext).value) == Ok(plaintext)
  {
    hide Correct, OpensHonest, Decrypt;
    if c.derive(password, salt, params).Some? {
      CorrectOpensHonest(c, c.derive(password, salt, params).value, plaintext);
      RoundTrip(c, password, params, salt, plaintext);
    }
  }

  lemma {:induction false} BodyLength(c: Crypto, key: Bytes, plaintext: Bytes, i: nat)
    requires OpensHonest(c, key, plaintext) && i <= Frames(plaintext)
    ensures |BodyFrom(c, key, plaintext, i)|
         == |plaintext| - Min(i * FRAME, |plaintext|) + TAG_LEN * (Frames(plaintext) - i)
    decreases Frames(plaintext) - i
  {
    BodyStep(c, key, plaintext, i);
    if i < Frames(plaintext) {
      BodyLength(c, key, plaintext, i + 1);
    }
  }

  /** 40 bytes of header, the plaintext, and one tag for each started 16 KiB. */
  lemma EnvelopeLength(c: Crypto, password: Bytes, params: Params, salt: Bytes, plaintext: Bytes)
    requires |salt| == SALT_LEN && c.derive(password, salt, params).Some?
    requires OpensHonest(c, c.derive(password, salt, params).value, plaintext)
    ensures Encrypt(c, password, params, salt, plaintext).Ok?
    ensures |Encrypt(c, password, params, salt, plaintext).value|
         == 40 + |plaintext| + 16 * ((|plaintext| + 16383) / 16384)
  {
    assert plaintext[0..] == plaintext;
    BodyLength(c, c.derive(password, salt, params).value, plaintext, 0);
  }

  // ----- Integrity

  /** Counters below 2^64 give distinct nonces, and the last-frame flag separates nonces too. */
  lemma NoncesDistinct(i: nat, a: bool, j: nat, b: bool)
    requires i < U64_LIMIT && j < U64_LIMIT
    ensures MakeNonce(i, a) == MakeNonce(j, b) <==> i == j && a == b
  {
    if MakeNonce(i, a) == MakeNonce(j, b) {
      assert MakeNonce(i, a)[..8] == LeBytes(i, 8) && MakeNonce(j, b)[..8] == LeBytes(j, 8);
      assert MakeNonce(i, a)[8] == Flag(a) && MakeNonce(j, b)[8] == Flag(b);
      Limits();
      LeInjective(i, j, 8);
    }
  }

  /** Nonce and associated data both carry the counter, least significant byte first, and the flag. */
  lemma NonceAndAad(counter: nat, last: bool)
    requires counter < U64_LIMIT
    ensures var aad := MakeAad(counter, last);
            |aad| == 9 && FromLe(aad[..8]) == counter && aad[8] == (if last then 1 else 0)
    ensures MakeNonce(counter, last) == MakeAad(counter, last) + [0, 0, 0]
  {
    Limits();
    LeRoundTrip(counter, 8);
    assert MakeAad(counter, last)[..8] == LeBytes(counter, 8);
  }

  /** A frame that opens at counter `i` is the honest frame `i`, in its honest role. */
  lemma OpenedFrameIsHonest(c: Crypto, key: Bytes, plaintext: Bytes, frame: Bytes, i: nat, last: bool)
    requires OnlyHonestOpens(c, key, plaintext) && |plaintext| < U64_LIMIT && i < U64_LIMIT
    requires c.open(key, MakeNonce(i, last), MakeAad(i, last), frame).Some?
    ensures i < Frames(plaintext) && last == (i + 1 == Frames(plaintext))
    ensures frame == SealedFrame(c, key, plaintext, i)
  {
    assert IsHonestFrame(c, key, plaintext, MakeNonce(i, last), MakeAad(i, last), frame);
    var j :| 0 <= j < Frames(plaintext) && MakeNonce(i, last) == NonceOf(plaintext, j)
             && MakeAad(i, last) == AadOf(plaintext, j) && frame == SealedFrame(c, key, plaintext, j);
    NoncesDistinct(i, last, j, j + 1 == Frames(plaintext));
  }

  /** Whatever frame size a run of frames is cut with: if it opens, it is the honest body, and gives the plaintext. */
  lemma {:induction false} OpenedBodyIsHonest(
      c: Crypto, key: Bytes, plaintext: Bytes, frameSize: nat, rest: Bytes, i: nat)
    requires OnlyHonestOpens(c, key, plaintext)
    requires |plaintext| < U64_LIMIT && i + |rest| < U64_LIMIT
    requires rest != [] && OpenFrames(c, key, frameSize, rest, i).Ok?
    ensures rest == BodyFrom(c, key, plaintext, i)
    ensures OpensHonest(c, key, plaintext) ==>
              OpenFrames(c, key, frameSize, rest, i).value == plaintext[Min(i * FRAME, |plaintext|)..]
    decreases |rest|
  {
    hide MakeNonce, MakeAad, OnlyHonestOpens, BodyFrom, SealedFrame, FrameText;
    var take := if |rest| > frameSize + TAG_LEN then frameSize + TAG_LEN else |rest|;
    OpenedFrameIsHonest(c, key, plaintext, rest[..take], i, take == |rest|);
    BodyStep(c, key, plaintext, i);
    FrameShape(plaintext, i);
    assert rest == rest[..take] + rest[take..];
    if take < |rest| {
      OpenedBodyIsHonest(c, key, plaintext, frameSize, rest[take..], i + 1);
    } else {
      BodyStep(c, key, plaintext, i + 1);
    }
  }

  /** The reader's frame size cuts the honest body where the writer did. */
  ghost predicate CutsHonestly(frameSize: nat, plaintext: Bytes, body: Bytes) {
    frameSize == FRAME || (Frames(plaintext) <= 1 && |body| <= frameSize + TAG_LEN)
  }

  lemma HonestBodyOpens(c: Crypto, key: Bytes, plaintext: Bytes, frameSize: nat)
    requires OpensHonest(c, key, plaintext) && OnlyHonestOpens(c, key, plaintext)
    requires 0 < |plaintext| < U64_LIMIT
    ensures var body := BodyFrom(c, key, plaintext, 0);
            OpenFrames(c, key, frameSize, body, 0).Ok? <==> CutsHonestly(frameSize, plaintext, body)
  {
    hide MakeNonce, MakeAad, OnlyHonestOpens, BodyFrom, FrameText, SealedFrame;
    var body := BodyFrom(c, key, plaintext, 0);
    var take := if |body| > frameSize + TAG_LEN then frameSize + TAG_LEN else |body|;
    BodyStep(c, key, plaintext, 0);
    BodyStep(c, key, plaintext, 1);
    FrameShape(plaintext, 0);
    OpenInvertsSealFrom(c, key, plaintext, 0);
    if OpenFrames(c, key, frameSize, body, 0).Ok? {
      OpenedFrameIsHonest(c, key, plaintext, body[..take], 0, take == |body|);
    }
  }

  /**
   * Integrity under the honest password, for every value of the frame-size field, which no tag protects: a
   * body decrypts exactly when it is empty, or is the honest body byte for byte and the field cuts it where
   * the writer did. The result is then empty or the plaintext.
   */
  lemma EnvelopeIntegrity(c: Crypto, password: Bytes, params: Params, frameField: Bytes, salt: Bytes,
                          plaintext: Bytes, body: Bytes)
    requires ValidParams(params) && |frameField| == 4 && |salt| == SALT_LEN
    requires c.derive(password, salt, params).Some?
    requires |plaintext| < U64_LIMIT && |body| < U64_LIMIT
    requires OpensHonest(c, c.derive(password, salt, params).value, plaintext)
    requires OnlyHonestOpens(c, c.derive(password, salt, params).value, plaintext)
    ensures var r := Decrypt(c, password, HeaderWith(params, frameField, salt) + body);
            (&& (r.Ok? <==> || body == []
                            || (&& Encrypt(c, password, params, salt, plaintext) == Ok(Header(params, salt) + body)
                                && CutsHonestly(FrameSize(FromLe(frameField)), plaintext, body)))
             && (r.Ok? ==> r.value == if body == [] then [] else plaintext))
  {
    hide OnlyHonestOpens, OpensHonest, Decrypt, OpenFrames, SealFrames, FromLe, FrameSize, HeaderWith, CutsHonestly;
    var key := c.derive(password, salt, params).value;
    var size := FrameSize(FromLe(frameField));
    DecryptUnderHeader(c, password, params, frameField, salt, body);
    NoFrames(c, key, size);
    assert plaintext[0..] == plaintext;
    HonestEnvelope(c, password, params, salt, plaintext, body);
    if body != [] {
      if OpenFrames(c, key, size, body, 0).Ok? {
        OpenedBodyIsHonest(c, key, plaintext, size, body, 0);
      }
      if body == BodyFrom(c, key, plaintext, 0) {
        EmptyBodyOnlyIfEmpty(c, key, plaintext);
        HonestBodyOpens(c, key, plaintext, size);
      }
    }
  }

  lemma NoFrames(c: Crypto, key: Bytes, frameSize: nat)
    ensures OpenFrames(c, key, frameSize, [], 0) == Ok([])
  {
  }

  lemma HonestEnvelope(c: Crypto, password: Bytes, params: Params, salt: Bytes, plaintext: Bytes, body: Bytes)
    requires |salt| == SALT_LEN && c.derive(password, salt, params).Some?
    ensures Encrypt(c, password, params, salt, plaintext) == Ok(Header(params, salt) + body)
       <==> body == BodyFrom(c, c.derive(password, salt, params).value, plaintext, 0)
  {
    hide Header, SealFrames;
    var header, honest := Header(params, salt), BodyFrom(c, c.derive(password, salt, params).value, plaintext, 0);
    assert plaintext[0..] == plaintext;
    if header + body == header + honest {
      assert body == (header + body)[HEADER_LEN..] == (header + honest)[HEADER_LEN..] == honest;
    }
  }

  /**
   * So under an honest header a truncated, extended, reordered, duplicated or altered body that is not
   * empty is rejected.
   */
  lemma BodyIntegrity(c: Crypto, password: Bytes, params: Params, salt: Bytes, plaintext: Bytes, body: Bytes)
    requires ValidParams(params) && |salt| == SALT_LEN && c.derive(password, salt, params).Some?
    requires |plaintext| < U64_LIMIT && |body| < U64_LIMIT
    requires OpensHonest(c, c.derive(password, salt, params).value, plaintext)
    requires OnlyHonestOpens(c, c.derive(password, salt, params).value, plaintext)
    ensures Decrypt(c, password, Header(params, salt) + body).Ok?
       <==> body == [] || Encrypt(c, password, params, salt, plaintext) == Ok(Header(params, salt) + body)
    ensures Decrypt(c, password, Header(params, salt) + body).Ok?
            ==> Decrypt(c, password, Header(params, salt) + body).value == if body == [] then [] else plaintext
  {
    hide OnlyHonestOpens, OpensHonest, Decrypt, Encrypt, HeaderWith, FromLe, FrameSize;
    FrameField();
    EnvelopeIntegrity(c, password, params, LeBytes(FRAME_SIZE_LOG2, 4), salt, plaintext, body);
  }

  lemma EmptyBodyOnlyIfEmpty(c: Crypto, key: Bytes, plaintext: Bytes)
    requires OpensHonest(c, key, plaintext)
    ensures BodyFrom(c, key, plaintext, 0) == [] <==> plaintext == []
  {
    BodyLength(c, key, plaintext, 0);
  }

  /** The integrity assumptions are consistent: some AEAD satisfies them for any key and plaintext. */
  lemma IdealAeadExists(key: Bytes, plaintext: Bytes) returns (c: Crypto)
    requires |plaintext| < U64_LIMIT
    ensures OpensHonest(c, key, plaintext) && OnlyHonestOpens(c, key, plaintext)
  {
    var tag: Bytes := seq(TAG_LEN, _ => 0);
    var frames := Frames(plaintext);
    var open := (k: Bytes, n: Bytes, a: Bytes, ct: Bytes) =>
      if |n| < 8 then None
      else
        var i := FromLe(n[..8]);
        if i < frames && n == NonceOf(plaintext, i) && a == AadOf(plaintext, i) && ct == FrameText(plaintext, i) + tag
        then Some(FrameText(plaintext, i)) else None;
    c := Crypto((k, n, a, m) => m + tag, open, (w, s, p) => Some(key));
    forall i | 0 <= i < frames
      ensures c.open(key, NonceOf(plaintext, i), AadOf(plaintext, i), SealedFrame(c, key, plaintext, i))
           == Some(FrameText(plaintext, i))
    {
      assert NonceOf(plaintext, i)[..8] == LeBytes(i, 8);
      Limits();
      LeRoundTrip(i, 8);
    }
  }
}
