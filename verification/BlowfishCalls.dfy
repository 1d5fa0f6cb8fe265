/**
  Whole conversations over external_libs/mbedtls/library/blowfish.c: one side encrypts a text in
  several calls, the other decrypts it in several calls cut elsewhere, each side carrying its
  vector, counter and offset from call to call.
 */
module BlowfishCalls {
  import opened BlowfishModes
  import opened Blowfish

  // ---------- cutting a text into the data of calls ----------

  function Min(a: nat, b: nat): nat {
    if a < b then a else b
  }

  /** The text cut into pieces of the given lengths, counted from its end; what is left comes first. */
  function Cut<A>(text: seq<A>, lengths: seq<nat>): (parts: seq<seq<A>>)
    ensures Concat(parts) == text
    decreases |lengths|
  {
    if |lengths| == 0 then
      assert [text][..0] == [];
      [text]
    else
      var at := |text| - Min(lengths[|lengths| - 1], |text|);
      var front := Cut(text[..at], lengths[..|lengths| - 1]);
      assert (front + [text[at..]])[..|front|] == front;
      front + [text[at..]]
  }

  lemma PartsStep<S, A, B>(step: (S, A) -> (B, S), s: S, parts: seq<seq<A>>, i: nat)
    requires i < |parts|
    ensures var before := RunParts(step, s, parts[..i]);
      var now := Run(step, before.1, parts[i]);
      RunParts(step, s, parts[..i + 1]) == (before.0 + now.0, now.1)
    ensures RunParts(step, s, parts[..0]) == ([], s) && parts[..|parts|] == parts
  {
    assert parts[..i + 1][..i] == parts[..i];
  }

  lemma NoParts<S, A, B>(step: (S, A) -> (B, S), s: S, parts: seq<seq<A>>)
    ensures RunParts(step, s, parts[..0]) == ([], s) && parts[..|parts|] == parts
  {
  }

  /** One call's data, in a buffer that the call works on in place. */
  method BufferOf(data: seq<bv8>) returns (buf: array<bv8>)
    ensures fresh(buf) && buf.Length == |data| && buf[..] == buf[..|data|] == data
  {
    buf := new bv8[|data|](k requires 0 <= k < |data| => data[k]);
  }

  // ---------- CFB64 ----------

  /** One call for each part. */
  method CfbCalls(ctx: BlowfishContext, mode: int, iv: array<bv8>, iv_off: nat, parts: seq<seq<bv8>>)
    returns (out: seq<bv8>, n: nat)
    requires ctx.Shaped() && iv.Length == 8 && iv_off < 8
    modifies iv
    ensures n < 8
    ensures (out, Feedback(iv[..], n)) == RunParts(ctx.CfbStep(mode), Feedback(old(iv[..]), iv_off), parts)
  {
    hide RunParts, BlowfishContext.CfbStep;
    out, n := [], iv_off;
    ghost var step, start := ctx.CfbStep(mode), Feedback(iv[..], iv_off);
    NoParts<Feedback, bv8, bv8>(step, start, parts);
    for i := 0 to |parts|
      invariant n < 8
      invariant (out, Feedback(iv[..], n)) == RunParts(step, start, parts[..i])
    {
      PartsStep<Feedback, bv8, bv8>(step, start, parts, i);
      var buf := BufferOf(parts[i]);
      n := ctx.CryptCfb64(mode, buf.Length, n, iv, buf, buf);
      assert buf[..buf.Length] == buf[..];
      out := out + buf[..];
    }
  }

  /** However the two sides cut the text, the plain text comes back and both end in the same state. */
  method CfbBothWays(ctx: BlowfishContext, start: Feedback, text: seq<bv8>, sent: seq<nat>, received: seq<nat>)
    returns (cipher: seq<bv8>, plain: seq<bv8>, ends: (Feedback, Feedback))
    requires ctx.Shaped()
    ensures plain == text && ends.0 == ends.1
    ensures cipher == Run(CfbEncrypt(EncryptBlock(ctx.Keys(), ctx.Boxes())), start, text).0
  {
    hide RunParts, Run, Cut, CfbEncrypt, CfbDecrypt, EncryptBlock;
    CutJoins(text, sent);
    ghost var p, s := ctx.Keys(), ctx.Boxes();
    var iv := BufferOf(start.iv);
    var n;
    cipher, n := CfbCalls(ctx, ENCRYPT, iv, start.n, Cut(text, sent));
    CutJoins(cipher, received);
    RunPartsIsRun<Feedback, bv8, bv8>(CfbEncrypt(EncryptBlock(p, s)), start, Cut(text, sent));
    CfbRoundTrip(p, s, start, Cut(text, sent), Cut(cipher, received));
    var iv' := BufferOf(start.iv);
    var n';
    plain, n' := CfbCalls(ctx, DECRYPT, iv', start.n, Cut(cipher, received));
    ends := (Feedback(iv[..], n), Feedback(iv'[..], n'));
  }

  lemma CutJoins<A>(text: seq<A>, lengths: seq<nat>)
    ensures Concat(Cut(text, lengths)) == text
  {
  }

  // ---------- CTR ----------

  method CtrCalls(ctx: BlowfishContext, nonce_counter: array<bv8>, stream_block: array<bv8>, nc_off: nat,
      parts: seq<seq<bv8>>)
    returns (out: seq<bv8>, n: nat)
    requires ctx.Shaped() && nonce_counter.Length == 8 && stream_block.Length == 8 && nc_off < 8
    requires nonce_counter != stream_block
    modifies nonce_counter, stream_block
    ensures n < 8
    ensures (out, Counter(nonce_counter[..], stream_block[..], n))
      == RunParts(ctx.CtrStep(), old(Counter(nonce_counter[..], stream_block[..], nc_off)), parts)
  {
    hide RunParts, BlowfishContext.CtrStep;
    out, n := [], nc_off;
    ghost var step, start := ctx.CtrStep(), Counter(nonce_counter[..], stream_block[..], nc_off);
    NoParts<Counter, bv8, bv8>(step, start, parts);
    for i := 0 to |parts|
      invariant n < 8
      invariant (out, Counter(nonce_counter[..], stream_block[..], n)) == RunParts(step, start, parts[..i])
    {
      PartsStep<Counter, bv8, bv8>(step, start, parts, i);
      var buf := BufferOf(parts[i]);
      n := ctx.CryptCtr(buf.Length, n, nonce_counter, stream_block, buf, buf);
      assert buf[..buf.Length] == buf[..];
      out := out + buf[..];
    }
  }

  method CtrBothWays(ctx: BlowfishContext, start: Counter, text: seq<bv8>, sent: seq<nat>, received: seq<nat>)
    returns (cipher: seq<bv8>, plain: seq<bv8>, ends: (Counter, Counter))
    requires ctx.Shaped()
    ensures plain == text && ends.0 == ends.1
    ensures cipher == Run(CtrCrypt(EncryptBlock(ctx.Keys(), ctx.Boxes())), start, text).0
  {
    hide RunParts, Run, Cut, CtrCrypt, EncryptBlock;
    CutJoins(text, sent);
    ghost var p, s := ctx.Keys(), ctx.Boxes();
    var nonce := BufferOf(start.nonce);
    var stream := BufferOf(start.stream);
    var n;
    cipher, n := CtrCalls(ctx, nonce, stream, start.n, Cut(text, sent));
    CutJoins(cipher, received);
    RunPartsIsRun<Counter, bv8, bv8>(CtrCrypt(EncryptBlock(p, s)), start, Cut(text, sent));
    CtrRoundTrip(p, s, start, Cut(text, sent), Cut(cipher, received));
    var nonce' := BufferOf(start.nonce);
    var stream' := BufferOf(start.stream);
    var n';
    plain, n' := CtrCalls(ctx, nonce', stream', start.n, Cut(cipher, received));
    ends := (Counter(nonce[..], stream[..], n), Counter(nonce'[..], stream'[..], n'));
  }

  // ---------- CBC, cut between blocks ----------

  function Bytes(blocks: seq<Octets>): (b: seq<bv8>)
    ensures |b| == 8 * |blocks|
  {
    if |blocks| == 0 then [] else Bytes(blocks[..|blocks| - 1]) + blocks[|blocks| - 1]
  }

  lemma {:induction false} BlocksOfBytes(blocks: seq<Octets>)
    ensures BlocksOf(Bytes(blocks)) == blocks
    decreases |blocks|
  {
    hide BlocksOf;
    if |blocks| == 0 {
      NoBlocks();
    } else {
      var front := blocks[..|blocks| - 1];
      BlocksOfBytes(front);
      BlocksAppend(Bytes(front), blocks[|blocks| - 1]);
    }
  }

  lemma NoBlocks()
    ensures BlocksOf([]) == []
  {
  }

  lemma BytesOfBlocks(b: seq<bv8>)
    requires |b| % 8 == 0
    ensures |Bytes(BlocksOf(b))| == |b| && Bytes(BlocksOf(b)) == b
  {
    hide BlocksOf, Bytes;
    BlockCount(b);
    ByteCount(BlocksOf(b));
    BlocksOfBytes(BlocksOf(b));
    BlocksInjective(Bytes(BlocksOf(b)), b);
  }

  lemma BlockCount(b: seq<bv8>)
    requires |b| % 8 == 0
    ensures |BlocksOf(b)| == |b| / 8
  {
  }

  lemma ByteCount(blocks: seq<Octets>)
    ensures |Bytes(blocks)| == 8 * |blocks|
  {
  }

  /** One call for each run of blocks. */
  method CbcCalls(ctx: BlowfishContext, mode: int, iv: array<bv8>, parts: seq<seq<Octets>>)
    returns (out: seq<Octets>)
    requires ctx.Shaped() && iv.Length == 8
    modifies iv
    ensures (out, iv[..]) == RunParts<Octets, Octets, Octets>(ctx.CbcStep(mode), old(iv[..]), parts)
  {
    hide RunParts, BlowfishContext.CbcStep, BlocksOf, Bytes;
    out := [];
    ghost var step, start: Octets := ctx.CbcStep(mode), iv[..];
    NoParts<Octets, Octets, Octets>(step, start, parts);
    for i := 0 to |parts|
      invariant (out, iv[..]) == RunParts<Octets, Octets, Octets>(step, start, parts[..i])
    {
      PartsStep<Octets, Octets, Octets>(step, start, parts, i);
      ByteCount(parts[i]);
      BlocksOfBytes(parts[i]);
      var buf := BufferOf(Bytes(parts[i]));
      var ret := ctx.CryptCbc(mode, buf.Length, iv, buf, buf);
      assert buf[..buf.Length] == buf[..];
      out := out + BlocksOf(buf[..]);
    }
  }

  /** Texts of whole blocks; the calls may be cut between any two blocks. */
  method CbcBothWays(ctx: BlowfishContext, start: Octets, text: seq<bv8>, sent: seq<nat>, received: seq<nat>)
    returns (cipher: seq<bv8>, plain: seq<bv8>, ends: (Octets, Octets))
    requires ctx.Shaped() && |text| % 8 == 0
    ensures plain == text && ends.0 == ends.1
    ensures |cipher| == |text|
    ensures BlocksOf(cipher) == Run(CbcEncrypt(EncryptBlock(ctx.Keys(), ctx.Boxes())), start, BlocksOf(text)).0
  {
    hide RunParts, Cut, CbcEncrypt, CbcDecrypt, EncryptBlock, DecryptBlock, BlocksOf, Bytes;
    var blocks := BlocksOf(text);
    CutJoins(blocks, sent);
    ghost var p, s := ctx.Keys(), ctx.Boxes();
    var iv := BufferOf(start);
    var out := CbcCalls(ctx, ENCRYPT, iv, Cut(blocks, sent));
    CutJoins(out, received);
    RunPartsIsRun<Octets, Octets, Octets>(CbcEncrypt(EncryptBlock(p, s)), start, Cut(blocks, sent));
    CbcRoundTrip(p, s, start, Cut(blocks, sent), Cut(out, received));
    BlockCount(text);
    ByteCount(out);
    BlocksOfBytes(out);
    cipher := Bytes(out);
    var iv' := BufferOf(start);
    var back := CbcCalls(ctx, DECRYPT, iv', Cut(BlocksOf(cipher), received));
    BytesOfBlocks(text);
    plain := Bytes(back);
    ends := (iv[..], iv'[..]);
  }
}
