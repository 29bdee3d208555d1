/** Verify-after-write: `verify_full`, `verify_full_by_hash` and their helpers. */
module Verify {
  import opened Common
  import opened Bits
  import opened Streams

  datatype VerifyOutcome = VerifyOutcome(passed: bool, bytesRead: nat, firstMismatch: Option<nat>)

  /** The length of the longest common prefix. */
  function CommonPrefix(a: Bytes, b: Bytes): nat {
    if a == [] || b == [] || a[0] != b[0] then 0 else 1 + CommonPrefix(a[1..], b[1..])
  }

  /** The longest common prefix ends where one sequence ends or the two first differ. */
  lemma {:induction false} CommonPrefixIs(a: Bytes, b: Bytes, n: nat)
    ensures n == CommonPrefix(a, b)
       <==> n <= |a| && n <= |b| && a[..n] == b[..n] && (n == |a| || n == |b| || a[n] != b[n])
    decreases |a|
  {
    if a != [] && b != [] && a[0] == b[0] {
      if n == 0 {
      } else {
        CommonPrefixIs(a[1..], b[1..], n - 1);
        if n <= |a| && n <= |b| {
          assert a[..n] == [a[0]] + a[1..][..n - 1] && b[..n] == [b[0]] + b[1..][..n - 1];
        }
      }
    } else if 0 < n <= |a| && n <= |b| {
      assert a[..n][0] == a[0] && b[..n][0] == b[0];
    }
  }

  /** `read_exact_or_eof`: short reads are repeated until the buffer is full or the source is at its end. */
  method ReadExactOrEof(r: ByteSource, buf: array<Byte>) returns (res: Result<nat, IoError>)
    requires r.Valid()
    modifies r, buf
    ensures r.Valid()
    ensures forall e | e in r.schedule :: e in old(r.schedule)
    ensures res.Err? ==> Fails(res.error) in old(r.schedule)
    ensures res.Ok? ==> && res.value == Min(buf.Length, |old(r.Remaining())|)
                        && buf[..res.value] == old(r.Remaining())[..res.value]
                        && r.pos == old(r.pos) + res.value
  {
    var filled := 0;
    while filled < buf.Length
      invariant r.Valid() && filled <= buf.Length && r.pos == old(r.pos) + filled
      invariant buf[..filled] == r.data[old(r.pos)..r.pos]
      invariant forall e | e in r.schedule :: e in old(r.schedule)
      decreases buf.Length - filled
    {
      var n := ReadStep(r, buf, filled);
      if n.Err? {
        return Err(n.error);
      }
      if n.value == 0 {
        break;
      }
      assert r.data[old(r.pos)..r.pos] == r.data[old(r.pos)..old(r.pos) + filled] + r.data[old(r.pos) + filled..r.pos];
      filled := filled + n.value;
    }
    return Ok(filled);
  }

  /** One `r.read(&mut buf[filled..])`, extending what is filled. */
  method ReadStep(r: ByteSource, buf: array<Byte>, filled: nat) returns (n: Result<nat, IoError>)
    requires r.Valid() && filled < buf.Length
    modifies r, buf
    ensures r.Valid()
    ensures forall e | e in r.schedule :: e in old(r.schedule)
    ensures n.Err? ==> Fails(n.error) in old(r.schedule)
    ensures n.Ok? ==> && n.value <= buf.Length - filled && r.pos == old(r.pos) + n.value
                      && (n.value == 0 ==> r.pos == |r.data|)
                      && buf[..filled + n.value] == old(buf[..filled]) + r.data[old(r.pos)..r.pos]
  {
    n := r.Read(buf, filled, buf.Length);
    if n.Ok? {
      assert buf[..filled + n.value] == buf[..filled] + buf[filled..filled + n.value];
    }
  }

  /** `first_diff`: the first index where two slices of equal length disagree. */
  method FirstDiff(a: Bytes, b: Bytes) returns (r: Option<nat>)
    ensures r.None? ==> a[..Min(|a|, |b|)] == b[..Min(|a|, |b|)]
    ensures r.Some? ==> r.value < Min(|a|, |b|) && a[..r.value] == b[..r.value] && a[r.value] != b[r.value]
  {
    for i := 0 to Min(|a|, |b|)
      invariant a[..i] == b[..i]
    {
      if a[i] != b[i] {
        return Some(i);
      }
      assert a[..i + 1] == a[..i] + [a[i]] && b[..i + 1] == b[..i] + [b[i]];
    }
    return None;
  }

  /** How many bytes a failed comparison has read from each side, with blocks of `block` bytes. */
  function BytesCompared(a: Bytes, b: Bytes, block: nat): nat
    requires block > 0
  {
    Min(Min(|a|, |b|), (CommonPrefix(a, b) / block + 1) * block)
  }

  /** Whole blocks are compared: the least multiple of the block past the mismatch, or all of the shorter stream. */
  lemma BytesComparedIs(a: Bytes, b: Bytes, block: nat)
    requires block > 0
    ensures var n, shorter := BytesCompared(a, b, block), Min(|a|, |b|);
            (&& CommonPrefix(a, b) <= n <= shorter
             && (n < shorter ==> CommonPrefix(a, b) < n <= CommonPrefix(a, b) + block && n % block == 0))
  {
    var p := CommonPrefix(a, b);
    CommonPrefixIs(a, b, p);
    hide CommonPrefix;
    BlockPast(p, block);
  }

  lemma BlockPast(p: nat, block: nat)
    requires block > 0
    ensures p < (p / block + 1) * block <= p + block && (p / block + 1) * block % block == 0
  {
    NextBlock(p / block, block);
    var next := (p / block + 1) * block;
    DivBlock(p / block + 1, 0, block);
    assert next == next / block * block + next % block;
  }

  /** What `verify_full` reports for an expected and a re-read stream. */
  ghost predicate Correct(o: VerifyOutcome, src: Bytes, dev: Bytes, block: nat)
    requires block > 0
  {
    && (o.passed <==> src == dev)
    && (o.passed ==> o.firstMismatch == None && o.bytesRead == |src|)
    && (!o.passed ==> o.firstMismatch == Some(CommonPrefix(src, dev)) && o.bytesRead == BytesCompared(src, dev, block))
  }

  lemma DivBlock(q: nat, p: nat, block: nat)
    requires p < block
    ensures (q * block + p) / block == q
  {
    var d := (q * block + p) / block;
    assert d * block <= q * block + p < d * block + block;
    if d < q {
      NextMultiple(d, q, block);
    } else if q < d {
      NextMultiple(q, d, block);
    }
  }

  /** Blocks agree up to index `p` of the block that starts at `offset`, and differ there. */
  lemma MismatchInBlock(a: Bytes, b: Bytes, offset: nat, n: nat, p: nat, block: nat, round: nat)
    requires offset + n <= |a| && offset + n <= |b| && p < n <= block && offset == round * block
    requires n == Min(block, Min(|a|, |b|) - offset)
    requires a[..offset] == b[..offset] && a[offset..offset + n][..p] == b[offset..offset + n][..p]
    requires a[offset + p] != b[offset + p]
    ensures CommonPrefix(a, b) == offset + p && BytesCompared(a, b, block) == offset + n
  {
    hide CommonPrefix;
    PrefixInBlock(a, b, offset, n, p);
    DivBlock(round, p, block);
    NextBlock(round, block);
  }

  lemma PrefixInBlock(a: Bytes, b: Bytes, offset: nat, n: nat, p: nat)
    requires offset + n <= |a| && offset + n <= |b| && p < n
    requires a[..offset] == b[..offset] && a[offset..offset + n][..p] == b[offset..offset + n][..p]
    requires a[offset + p] != b[offset + p]
    ensures CommonPrefix(a, b) == offset + p
  {
    hide CommonPrefix;
    assert a[..offset + p] == a[..offset] + a[offset..offset + n][..p];
    assert b[..offset + p] == b[..offset] + b[offset..offset + n][..p];
    CommonPrefixIs(a, b, offset + p);
  }

  /** One sequence is a proper prefix of the other. */
  lemma LengthMismatch(a: Bytes, b: Bytes, block: nat)
    requires block > 0 && |a| != |b| && a[..Min(|a|, |b|)] == b[..Min(|a|, |b|)]
    ensures CommonPrefix(a, b) == Min(|a|, |b|) == BytesCompared(a, b, block)
  {
    var m := Min(|a|, |b|);
    CommonPrefixIs(a, b, m);
    BlockCovers(m, block);
  }

  lemma NextBlock(round: nat, block: nat)
    ensures (round + 1) * block == round * block + block
  {
  }

  lemma BlockCovers(m: nat, block: nat)
    requires block > 0
    ensures m <= (m / block + 1) * block
  {
    assert (m / block + 1) * block == (m / block) * block + block;
  }

  /** Reads one block of each stream at the same offset and compares the part both have. */
  method CompareBlock(dev: ByteSource, src: ByteSource, bufDev: array<Byte>, bufSrc: array<Byte>)
    returns (r: Result<(nat, nat, Option<nat>), IoError>)
    requires dev != src && bufDev != bufSrc && bufDev.Length == bufSrc.Length
    requires dev.Valid() && src.Valid() && dev.pos == src.pos
    modifies dev, src, bufDev, bufSrc
    ensures dev.Valid() && src.Valid()
    ensures forall e | e in dev.schedule :: e in old(dev.schedule)
    ensures forall e | e in src.schedule :: e in old(src.schedule)
    ensures r.Err? ==> Fails(r.error) in old(dev.schedule) || Fails(r.error) in old(src.schedule)
    ensures r.Ok? ==>
              var (nSrc, nDev, diff) := r.value; var from := old(src.pos); var n := Min(nSrc, nDev);
              && nSrc == Min(bufSrc.Length, |src.data| - from) && nDev == Min(bufDev.Length, |dev.data| - from)
              && src.pos == from + nSrc && dev.pos == from + nDev
              && (diff.None? ==> src.data[from..from + n] == dev.data[from..from + n])
              && (diff.Some? ==> && diff.value < n && src.data[from + diff.value] != dev.data[from + diff.value]
                                 && src.data[from..from + n][..diff.value] == dev.data[from..from + n][..diff.value])
  {
    var nSrc := ReadExactOrEof(src, bufSrc);
    if nSrc.Err? {
      return Err(nSrc.error);
    }
    var nDev := ReadExactOrEof(dev, bufDev);
    if nDev.Err? {
      return Err(nDev.error);
    }
    var n := Min(nSrc.value, nDev.value);
    ghost var from := old(src.pos);
    assert bufSrc[..n] == bufSrc[..nSrc.value][..n] == src.data[from..from + n];
    assert bufDev[..n] == bufDev[..nDev.value][..n] == dev.data[from..from + n];
    var diff := FirstDiff(bufSrc[..n], bufDev[..n]);
    return Ok((nSrc.value, nDev.value, diff));
  }

  /**
   * `verify_full`, for any block size and any schedule of short reads: it passes exactly when the two
   * streams are equal, and otherwise reports the length of their longest common prefix.
   */
  method VerifyFull(dev: ByteSource, src: ByteSource, block: nat) returns (r: Result<VerifyOutcome, IoError>)
    requires dev != src && block > 0 && dev.pos == 0 && src.pos == 0
    modifies dev, src
    ensures r.Ok? ==> Correct(r.value, src.data, dev.data, block)
    ensures r.Err? ==> Fails(r.error) in old(dev.schedule) || Fails(r.error) in old(src.schedule)
  {
    hide CommonPrefix, BytesCompared;
    var bufDev := new Byte[block](_ => 0);
    var bufSrc := new Byte[block](_ => 0);
    var offset := 0;
    ghost var round: nat := 0;
    while true
      invariant dev.Valid() && src.Valid() && offset == dev.pos == src.pos
      invariant src.data[..offset] == dev.data[..offset]
      invariant offset == round * block || offset == |src.data| == |dev.data|
      invariant forall e | e in dev.schedule :: e in old(dev.schedule)
      invariant forall e | e in src.schedule :: e in old(src.schedule)
      decreases |src.data| - offset
    {
      var read := CompareBlock(dev, src, bufDev, bufSrc);
      if read.Err? {
        return Err(read.error);
      }
      var (nSrc, nDev, diff) := read.value;
      var n := Min(nSrc, nDev);
      if diff.Some? {
        MismatchInBlock(src.data, dev.data, offset, n, diff.value, block, round);
        return Ok(VerifyOutcome(false, offset + n, Some(offset + diff.value)));
      }
      assert src.data[..offset + n] == src.data[..offset] + src.data[offset..offset + n];
      assert dev.data[..offset + n] == dev.data[..offset] + dev.data[offset..offset + n];
      offset := offset + n;
      if nSrc != nDev {
        LengthMismatch(src.data, dev.data, block);
        return Ok(VerifyOutcome(false, offset, Some(offset)));
      }
      if nSrc == 0 {
        assert src.data == src.data[..offset] && dev.data == dev.data[..offset];
        return Ok(VerifyOutcome(true, offset, None));
      }
      NextBlock(round, block);
      round := round + 1;
    }
  }

  // ----- Verification by hash

  function Lower(c: char): char {
    if 'A' <= c <= 'Z' then ((c as int) + 32) as char else c
  }

  /** `eq_ignore_ascii_case`. */
  predicate EqIgnoreCase(a: string, b: string) {
    |a| == |b| && forall i | 0 <= i < |a| :: Lower(a[i]) == Lower(b[i])
  }

  /** `verify_full_by_hash`: the verdict is on the digest of every byte of the device. */
  method VerifyFullByHash(dev: ByteSource, expectedHex: string, digest: Bytes -> string, block: nat)
    returns (r: Result<VerifyOutcome, IoError>)
    requires block > 0 && dev.pos == 0
    modifies dev
    ensures r.Err? ==> Fails(r.error) in old(dev.schedule)
    ensures r.Ok? ==> r.value == VerifyOutcome(EqIgnoreCase(digest(dev.data), expectedHex), |dev.data|,
                                               if EqIgnoreCase(digest(dev.data), expectedHex) then None else Some(0))
  {
    var buf := new Byte[block](_ => 0);
    var hashed: Bytes := [];
    var offset := 0;
    while true
      invariant dev.Valid() && offset == dev.pos && hashed == dev.data[..offset]
      invariant forall e | e in dev.schedule :: e in old(dev.schedule)
      decreases |dev.data| - offset
    {
      var n := dev.Read(buf, 0, block);
      if n.Err? {
        return Err(n.error);
      }
      if n.value == 0 {
        break;
      }
      assert buf[..n.value] == buf[0..0 + n.value];
      hashed := hashed + buf[..n.value];
      offset := offset + n.value;
    }
    assert hashed == dev.data;
    var passed := EqIgnoreCase(digest(hashed), expectedHex);
    return Ok(VerifyOutcome(passed, offset, if passed then None else Some(0)));
  }

  predicate IsLowerHex(s: string) {
    forall c | c in s :: '0' <= c <= '9' || 'a' <= c <= 'f'
  }

  /** `c`, or `c` in upper case when it is a letter. */
  predicate SameLetter(c: char, d: char) {
    d == c || ('a' <= c <= 'f' && d as int == c as int - 32)
  }

  /** The expected digest may be written with any of its letters in upper case, and differ in nothing else. */
  lemma DigestInAnyCase(digest: string, expectedHex: string)
    requires IsLowerHex(digest)
    ensures EqIgnoreCase(digest, expectedHex)
       <==> |digest| == |expectedHex| && forall i | 0 <= i < |digest| :: SameLetter(digest[i], expectedHex[i])
  {
    if |digest| == |expectedHex| {
      forall i | 0 <= i < |digest|
        ensures Lower(digest[i]) == Lower(expectedHex[i]) <==> SameLetter(digest[i], expectedHex[i])
      {
        assert digest[i] in digest;
      }
    }
  }

  /**
   * Digests are printed in lower-case hexadecimal, so ignoring the case of the expected one makes no two
   * of them equal: the verdict by hash differs from the verdict by bytes exactly on a collision.
   */
  lemma HashVerdict(digest: Bytes -> string, image: Bytes, dev: Bytes, expectedHex: string)
    requires IsLowerHex(digest(image)) && IsLowerHex(digest(dev)) && EqIgnoreCase(expectedHex, digest(image))
    ensures EqIgnoreCase(digest(dev), expectedHex) <==> digest(dev) == digest(image)
    ensures (EqIgnoreCase(digest(dev), expectedHex) <==> dev == image)
       <==> !(dev != image && digest(dev) == digest(image))
  {
    var a, b, c := digest(dev), expectedHex, digest(image);
    if EqIgnoreCase(a, b) {
      forall i | 0 <= i < |a| ensures a[i] == c[i] {
        assert Lower(a[i]) == Lower(b[i]) == Lower(c[i]);
        assert a[i] in a && c[i] in c;
      }
      assert a == c;
    }
  }
}
