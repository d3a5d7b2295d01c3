/** The encrypted backup stream (backup.py). AES-GCM follows the structure of sections 7.1
    and 7.2 of NIST SP 800-38D: data is combined with a keystream, and a tag covers the
    header and the ciphertext. The keystream and tag functions themselves are arbitrary. */
module BackupFormat {

  type Bytes = seq<bv8>

  const NONCE_SIZE := 12
  const TAG_SIZE := 16
  const HEADER_SIZE := 30
  const CHUNK_SIZE := 1048576

  type Nonce = n: Bytes | |n| == NONCE_SIZE witness [0, 0, 0, 0, 0, 0, 0, 0, 0, 0, 0, 0]
  type Tag = t: Bytes | |t| == TAG_SIZE witness [0, 0, 0, 0, 0, 0, 0, 0, 0, 0, 0, 0, 0, 0, 0, 0]

  /** "BASISHAWK-BACKUP", a zero byte, and the version. */
  const PREFIX: Bytes := [0x42, 0x41, 0x53, 0x49, 0x53, 0x48, 0x41, 0x57, 0x4B, 0x2D,
                          0x42, 0x41, 0x43, 0x4B, 0x55, 0x50, 0x00, 0x01]

  /** One key's cipher: the keystream byte for a nonce and position, and the tag for a
      nonce, the associated data and a ciphertext. */
  datatype Cipher = Cipher(keystream: (Nonce, nat) -> bv8, tag: (Nonce, Bytes, Bytes) -> Tag)

  /** Combining `data` with the keystream from position `from`. */
  function Combine(c: Cipher, nonce: Nonce, from: nat, data: Bytes): (r: Bytes)
    ensures |r| == |data|
    decreases data
  {
    if data == [] then []
    else [data[0] ^ c.keystream(nonce, from)] + Combine(c, nonce, from + 1, data[1..])
  }

  lemma Associative(x: Bytes, y: Bytes, z: Bytes)
    ensures x + (y + z) == (x + y) + z
  {
  }

  lemma {:induction false} CombineAppend(c: Cipher, nonce: Nonce, from: nat, a: Bytes, b: Bytes)
    ensures Combine(c, nonce, from, a + b) == Combine(c, nonce, from, a) + Combine(c, nonce, from + |a|, b)
    decreases a
  {
    if a == [] {
      assert a + b == b;
    } else {
      CombineAppend(c, nonce, from + 1, a[1..], b);
      assert (a + b)[1..] == a[1..] + b && (a + b)[0] == a[0];
      assert from + 1 + |a[1..]| == from + |a|;
      Associative([a[0] ^ c.keystream(nonce, from)], Combine(c, nonce, from + 1, a[1..]), Combine(c, nonce, from + |a|, b));
    }
  }

  lemma XorTwice(x: bv8, y: bv8)
    ensures (x ^ y) ^ y == x
  {
  }

  lemma {:induction false} CombineTwice(c: Cipher, nonce: Nonce, from: nat, data: Bytes)
    ensures Combine(c, nonce, from, Combine(c, nonce, from, data)) == data
    decreases data
  {
    if data != [] {
      CombineTwice(c, nonce, from + 1, data[1..]);
      XorTwice(data[0], c.keystream(nonce, from));
      var rest := Combine(c, nonce, from + 1, data[1..]);
      assert Combine(c, nonce, from, data)[1..] == rest;
    }
  }

  // ---------- the format ----------

  function Sealed(c: Cipher, nonce: Nonce, plain: Bytes): Bytes {
    var header, body := PREFIX + nonce, Combine(c, nonce, 0, plain);
    header + body + c.tag(nonce, header, body)
  }

  datatype Opened = Plain(data: Bytes) | UnsupportedFormat | TruncatedBackup | AuthenticationFailed

  function Unseal(c: Cipher, file: Bytes): Opened {
    if |file| < HEADER_SIZE || file[..|PREFIX|] != PREFIX then UnsupportedFormat
    else if |file| < HEADER_SIZE + TAG_SIZE then TruncatedBackup
    else
      var header, nonce: Nonce := file[..HEADER_SIZE], file[HEADER_SIZE - NONCE_SIZE..HEADER_SIZE];
      var body, tag := file[HEADER_SIZE..|file| - TAG_SIZE], file[|file| - TAG_SIZE..];
      if c.tag(nonce, header, body) == tag then Plain(Combine(c, nonce, 0, body)) else AuthenticationFailed
  }

  /** What opens to `plain` is exactly what sealing `plain` under some nonce produces. */
  lemma OpensExactlySealed(c: Cipher, file: Bytes, plain: Bytes)
    ensures Unseal(c, file) == Plain(plain) <==> exists nonce: Nonce :: file == Sealed(c, nonce, plain)
  {
    if Unseal(c, file) == Plain(plain) {
      var nonce: Nonce := file[HEADER_SIZE - NONCE_SIZE..HEADER_SIZE];
      var body := file[HEADER_SIZE..|file| - TAG_SIZE];
      assert file[..HEADER_SIZE] == PREFIX + nonce;
      CombineTwice(c, nonce, 0, body);
      assert file == file[..HEADER_SIZE] + body + file[|file| - TAG_SIZE..];
      assert file == Sealed(c, nonce, plain);
    }
    if nonce: Nonce :| file == Sealed(c, nonce, plain) {
      UnsealSealed(c, nonce, plain);
    }
  }

  lemma UnsealSealed(c: Cipher, nonce: Nonce, plain: Bytes)
    ensures Unseal(c, Sealed(c, nonce, plain)) == Plain(plain)
  {
    var header, body := PREFIX + nonce, Combine(c, nonce, 0, plain);
    var file := Sealed(c, nonce, plain);
    assert |header| == HEADER_SIZE;
    assert file[..|PREFIX|] == PREFIX;
    assert file[..HEADER_SIZE] == header;
    assert file[HEADER_SIZE - NONCE_SIZE..HEADER_SIZE] == nonce;
    assert file[HEADER_SIZE..|file| - TAG_SIZE] == body;
    assert file[|file| - TAG_SIZE..] == c.tag(nonce, header, body);
    CombineTwice(c, nonce, 0, plain);
  }

  /** The header names this format, and there is room for a tag after it. */
  predicate WellFormed(file: Bytes) {
    |file| >= HEADER_SIZE + TAG_SIZE && file[..|PREFIX|] == PREFIX
  }

  /** All that decrypting writes, whether or not the tag turns out to match. */
  function Written(c: Cipher, file: Bytes): Bytes {
    if !WellFormed(file) then []
    else Combine(c, file[HEADER_SIZE - NONCE_SIZE..HEADER_SIZE], 0, file[HEADER_SIZE..|file| - TAG_SIZE])
  }

  /** Some ciphertext, and a tag that is not the one the key gives it. */
  predicate Tampered(c: Cipher, file: Bytes) {
    && |file| > HEADER_SIZE + TAG_SIZE && file[..|PREFIX|] == PREFIX
    && c.tag(file[HEADER_SIZE - NONCE_SIZE..HEADER_SIZE], file[..HEADER_SIZE], file[HEADER_SIZE..|file| - TAG_SIZE])
       != file[|file| - TAG_SIZE..]
  }

  /** Bytes are written without the file being accepted exactly when it was tampered with. */
  lemma UnverifiedExactlyWhenTampered(c: Cipher, file: Bytes)
    ensures !Unseal(c, file).Plain? && Written(c, file) != [] <==> Tampered(c, file)
    ensures Unseal(c, file).Plain? ==> Written(c, file) == Unseal(c, file).data
  {
    if WellFormed(file) {
      assert |Written(c, file)| == |file| - TAG_SIZE - HEADER_SIZE;
    }
  }

  /** Any other tag in place of the right one: everything is written, nothing accepted. */
  lemma WrongTagWritesEverything(c: Cipher, nonce: Nonce, plain: Bytes, other: Tag)
    requires plain != [] && other != c.tag(nonce, PREFIX + nonce, Combine(c, nonce, 0, plain))
    ensures var file := PREFIX + nonce + Combine(c, nonce, 0, plain) + other;
      Unseal(c, file) == AuthenticationFailed && Written(c, file) == plain && Tampered(c, file)
  {
    var header, body := PREFIX + nonce, Combine(c, nonce, 0, plain);
    var file := header + body + other;
    assert |header| == HEADER_SIZE;
    assert file[..|PREFIX|] == PREFIX && file[..HEADER_SIZE] == header;
    assert file[HEADER_SIZE - NONCE_SIZE..HEADER_SIZE] == nonce;
    assert file[HEADER_SIZE..|file| - TAG_SIZE] == body && file[|file| - TAG_SIZE..] == other;
    CombineTwice(c, nonce, 0, plain);
  }

  /** For instance, one byte under a cipher whose tags are all zero, with a tag of ones. */
  lemma UnverifiedByteIsWritten() returns (c: Cipher, file: Bytes)
    ensures Unseal(c, file) == AuthenticationFailed && Written(c, file) == [0x07]
  {
    var nonce: Nonce := [0, 0, 0, 0, 0, 0, 0, 0, 0, 0, 0, 0];
    var zeros: Tag := [0, 0, 0, 0, 0, 0, 0, 0, 0, 0, 0, 0, 0, 0, 0, 0];
    var ones: Tag := [1, 1, 1, 1, 1, 1, 1, 1, 1, 1, 1, 1, 1, 1, 1, 1];
    c := Cipher((_, _) => 0, (_, _, _) => zeros);
    file := PREFIX + nonce + Combine(c, nonce, 0, [0x07]) + ones;
    assert ones[0] != zeros[0];
    WrongTagWritesEverything(c, nonce, [0x07], ones);
  }

  // ---------- streams ----------

  class Source {
    const data: Bytes
    var pos: nat

    predicate Valid()
      reads this
    {
      pos <= |data|
    }

    constructor (data: Bytes)
      ensures Valid() && this.data == data && pos == 0
    {
      this.data := data;
      pos := 0;
    }

    /** A read that may return fewer bytes than asked for, but none only at the end. */
    method Read(most: nat) returns (chunk: Bytes)
      requires Valid() && most > 0
      modifies this`pos
      ensures Valid() && old(pos) <= pos && chunk == data[old(pos)..pos] && |chunk| <= most
      ensures chunk == [] <==> old(pos) == |data|
    {
      if pos == |data| {
        return [];
      }
      var n: nat :| 1 <= n <= most && pos + n <= |data|;
      chunk := data[pos..pos + n];
      pos := pos + n;
    }

    /** A read of the header or the tag: everything asked for, unless the data ends. */
    method ReadFully(most: nat) returns (chunk: Bytes)
      requires Valid()
      modifies this`pos
      ensures pos == if old(pos) + most <= |data| then old(pos) + most else |data|
      ensures Valid() && chunk == data[old(pos)..pos]
    {
      var end := if pos + most <= |data| then pos + most else |data|;
      chunk := data[pos..end];
      pos := end;
    }
  }

  class Sink {
    var written: Bytes

    constructor ()
      ensures written == []
    {
      written := [];
    }

    method Write(chunk: Bytes)
      modifies this
      ensures written == old(written) + chunk
    {
      written := written + chunk;
    }
  }

  /** A GCM encryptor or decryptor: it has consumed `done` bytes, whose ciphertext is kept
      for the tag. */
  class Context {
    const cipher: Cipher
    const nonce: Nonce
    var associated: Bytes
    var done: nat
    var ciphertext: Bytes

    constructor (cipher: Cipher, nonce: Nonce)
      ensures this.cipher == cipher && this.nonce == nonce
      ensures associated == [] && done == 0 && ciphertext == []
    {
      this.cipher := cipher;
      this.nonce := nonce;
      associated, done, ciphertext := [], 0, [];
    }

    method AuthenticateAdditionalData(header: Bytes)
      modifies this`associated
      ensures associated == old(associated) + header
    {
      associated := associated + header;
    }

    method Encrypt(chunk: Bytes) returns (out: Bytes)
      modifies this`done, this`ciphertext
      ensures out == Combine(cipher, nonce, old(done), chunk)
      ensures done == old(done) + |chunk| && ciphertext == old(ciphertext) + out
    {
      out := Combine(cipher, nonce, done, chunk);
      done := done + |chunk|;
      ciphertext := ciphertext + out;
    }

    method Decrypt(chunk: Bytes) returns (out: Bytes)
      modifies this`done, this`ciphertext
      ensures out == Combine(cipher, nonce, old(done), chunk)
      ensures done == old(done) + |chunk| && ciphertext == old(ciphertext) + chunk
    {
      out := Combine(cipher, nonce, done, chunk);
      done := done + |chunk|;
      ciphertext := ciphertext + chunk;
    }

    method FinalTag() returns (tag: Tag)
      ensures tag == cipher.tag(nonce, associated, ciphertext)
    {
      tag := cipher.tag(nonce, associated, ciphertext);
    }
  }

  lemma SliceGrows(data: Bytes, start: nat, before: nat, pos: nat)
    requires start <= before <= pos <= |data|
    ensures data[start..before] + data[before..pos] == data[start..pos]
  {
  }

  /** The loop of `encrypt_stream`: every chunk, combined in turn. */
  method EncryptChunks(source: Source, target: Sink, encryptor: Context)
    requires source.Valid() && encryptor.done == 0 && encryptor.ciphertext == []
    modifies source`pos, target, encryptor`done, encryptor`ciphertext
    ensures source.Valid() && source.pos == |source.data|
    ensures encryptor.ciphertext == Combine(encryptor.cipher, encryptor.nonce, 0, source.data[old(source.pos)..])
    ensures target.written == old(target.written) + encryptor.ciphertext
  {
    ghost var start := source.pos;
    while true
      invariant source.Valid() && start <= source.pos
      invariant encryptor.done == source.pos - start
      invariant encryptor.ciphertext == Combine(encryptor.cipher, encryptor.nonce, 0, source.data[start..source.pos])
      invariant target.written == old(target.written) + encryptor.ciphertext
      decreases |source.data| - source.pos
    {
      ghost var before := source.pos;
      var chunk := source.Read(CHUNK_SIZE);
      if chunk == [] {
        break;
      }
      CombineAppend(encryptor.cipher, encryptor.nonce, 0, source.data[start..before], chunk);
      SliceGrows(source.data, start, before, source.pos);
      var out := encryptor.Encrypt(chunk);
      target.Write(out);
    }
    assert source.data[start..source.pos] == source.data[start..];
  }

  /** Whatever sizes the reads come in, the target receives the sealed form of all that
      was left in the source. */
  method EncryptStream(source: Source, target: Sink, cipher: Cipher, nonce: Nonce)
    requires source.Valid()
    modifies source`pos, target
    ensures source.Valid() && source.pos == |source.data|
    ensures target.written == old(target.written) + Sealed(cipher, nonce, source.data[old(source.pos)..])
  {
    var header := PREFIX + nonce;
    var encryptor := new Context(cipher, nonce);
    encryptor.AuthenticateAdditionalData(header);
    assert encryptor.associated == header;
    target.Write(header);
    EncryptChunks(source, target, encryptor);
    var tag := encryptor.FinalTag();
    target.Write(tag);
    assert target.written == old(target.written) + (header + encryptor.ciphertext + tag);
  }

  /** One chunk of the loop below, `before` having been written earlier. */
  method DecryptChunk(target: Sink, decryptor: Context, chunk: Bytes, ghost before: Bytes)
    requires decryptor.done == |decryptor.ciphertext|
    requires target.written == before + Combine(decryptor.cipher, decryptor.nonce, 0, decryptor.ciphertext)
    modifies target, decryptor`done, decryptor`ciphertext
    ensures decryptor.done == |decryptor.ciphertext| && decryptor.ciphertext == old(decryptor.ciphertext) + chunk
    ensures target.written == before + Combine(decryptor.cipher, decryptor.nonce, 0, decryptor.ciphertext)
  {
    CombineAppend(decryptor.cipher, decryptor.nonce, 0, decryptor.ciphertext, chunk);
    var out := decryptor.Decrypt(chunk);
    target.Write(out);
  }

  /** The loop of `decrypt_stream`: `remaining` counts down over the ciphertext, which the
      file cannot run out of. */
  method DecryptChunks(source: Source, target: Sink, decryptor: Context, size: nat)
    requires source.Valid() && source.pos + size <= |source.data|
    requires decryptor.done == 0 && decryptor.ciphertext == []
    modifies source`pos, target, decryptor`done, decryptor`ciphertext
    ensures source.Valid()
    ensures decryptor.ciphertext == source.data[old(source.pos)..old(source.pos) + size]
    ensures target.written == old(target.written) + Combine(decryptor.cipher, decryptor.nonce, 0, decryptor.ciphertext)
  {
    ghost var start := source.pos;
    var remaining: nat := size;
    while remaining != 0
      invariant source.Valid() && source.pos == start + size - remaining
      invariant remaining <= size
      invariant decryptor.done == |decryptor.ciphertext|
      invariant decryptor.ciphertext == source.data[start..source.pos]
      invariant target.written == old(target.written) + Combine(decryptor.cipher, decryptor.nonce, 0, decryptor.ciphertext)
      decreases remaining
    {
      ghost var before := source.pos;
      var chunk := source.Read(if remaining < CHUNK_SIZE then remaining else CHUNK_SIZE);
      remaining := remaining - |chunk|;
      SliceGrows(source.data, start, before, source.pos);
      DecryptChunk(target, decryptor, chunk, old(target.written));
    }
  }

  /** Reads the whole file and says what it opens to. The target receives the plaintext,
      and when the file was tampered with the unverified plaintext all the same. */
  method DecryptStream(source: Source, target: Sink, cipher: Cipher) returns (result: Opened)
    requires source.Valid() && source.pos == 0
    modifies source`pos, target
    ensures result == Unseal(cipher, source.data)
    ensures target.written == old(target.written) + Written(cipher, source.data)
    ensures !result.Plain? && target.written != old(target.written) <==> Tampered(cipher, source.data)
    ensures result == UnsupportedFormat <==> |source.data| < 30 || source.data[..18] != PREFIX
    ensures result == TruncatedBackup <==> 30 <= |source.data| < 46 && source.data[..18] == PREFIX
    ensures result.Plain? ==> target.written == old(target.written) + result.data
    ensures result.UnsupportedFormat? || result.TruncatedBackup? ==> target.written == old(target.written)
    ensures result.AuthenticationFailed? ==>
      target.written == old(target.written)
        + Combine(cipher, source.data[HEADER_SIZE - NONCE_SIZE..HEADER_SIZE], 0, source.data[HEADER_SIZE..|source.data| - TAG_SIZE])
  {
    var size := |source.data|;
    UnverifiedExactlyWhenTampered(cipher, source.data);
    var header := source.ReadFully(HEADER_SIZE);
    if |header| != HEADER_SIZE {
      return UnsupportedFormat;
    }
    assert header[..|PREFIX|] == source.data[..|PREFIX|];
    if header[..|PREFIX|] != PREFIX {
      return UnsupportedFormat;
    }
    if size < HEADER_SIZE + TAG_SIZE {
      return TruncatedBackup;
    }
    source.pos := size - TAG_SIZE;
    var tag := source.ReadFully(TAG_SIZE);
    var nonce: Nonce := header[HEADER_SIZE - NONCE_SIZE..];
    assert nonce == source.data[HEADER_SIZE - NONCE_SIZE..HEADER_SIZE] && tag == source.data[size - TAG_SIZE..];
    var decryptor := new Context(cipher, nonce);
    decryptor.AuthenticateAdditionalData(header);
    assert decryptor.associated == header;
    source.pos := HEADER_SIZE;
    DecryptChunks(source, target, decryptor, size - HEADER_SIZE - TAG_SIZE);
    var computed := decryptor.FinalTag();
    if computed != tag {
      return AuthenticationFailed;
    }
    return Plain(Combine(cipher, nonce, 0, decryptor.ciphertext));
  }

  datatype PipeResult = ChecksumMismatch | NotOpened(why: Opened) | CommandFailed | Piped

  /** `_pipe_decrypted`: after the checksum the archive is decrypted to a null sink, and only
      if it opens is the command started and given the plaintext, of which it may stop
      reading after `most` bytes. So a command never sees an unverified byte. */
  method PipeDecrypted(archive: Bytes, checksumMatches: bool, cipher: Cipher, most: nat, exitCode: int)
    returns (result: PipeResult, started: bool, received: Bytes)
    ensures started <==> checksumMatches && exists nonce: Nonce, plain: Bytes :: archive == Sealed(cipher, nonce, plain)
    ensures !started ==> received == []
    ensures forall nonce: Nonce, plain: Bytes :: archive == Sealed(cipher, nonce, plain) ==>
      received <= plain && (started && most >= |plain| ==> received == plain)
    ensures result == if !checksumMatches then ChecksumMismatch
      else if !started then NotOpened(Unseal(cipher, archive))
      else if exitCode != 0 then CommandFailed else Piped
  {
    OpensOnce(cipher, archive);
    received, started := [], false;
    if !checksumMatches {
      return ChecksumMismatch, false, [];
    }
    var source := new Source(archive);
    var sink := new Sink();
    var content := DecryptStream(source, sink, cipher);
    if !content.Plain? {
      return NotOpened(content), false, [];
    }
    var again := new Source(archive);
    var stdin := new Sink();
    content := DecryptStream(again, stdin, cipher);
    assert stdin.written == content.data;
    started := true;
    received := if |stdin.written| <= most then stdin.written else stdin.written[..most];
    result := if exitCode != 0 then CommandFailed else Piped;
  }

  /** A file opens exactly when it was sealed, and to one plaintext only. */
  lemma OpensOnce(c: Cipher, file: Bytes)
    ensures Unseal(c, file).Plain? <==> exists nonce: Nonce, plain: Bytes :: file == Sealed(c, nonce, plain)
    ensures forall nonce: Nonce, plain: Bytes :: file == Sealed(c, nonce, plain) ==> Unseal(c, file) == Plain(plain)
  {
    forall nonce: Nonce, plain: Bytes | file == Sealed(c, nonce, plain) ensures Unseal(c, file) == Plain(plain) {
      UnsealSealed(c, nonce, plain);
    }
    if Unseal(c, file).Plain? {
      OpensExactlySealed(c, file, Unseal(c, file).data);
    }
  }

  /** Encrypt, then decrypt what was written: the original bytes, for every input and
      every pattern of reads on both sides. */
  method RoundTrip(plain: Bytes, cipher: Cipher, nonce: Nonce) returns (result: Opened, restored: Bytes)
    ensures result == Plain(plain) && restored == plain
  {
    var source := new Source(plain);
    var archive := new Sink();
    EncryptStream(source, archive, cipher, nonce);
    assert source.data[0..] == plain;
    assert archive.written == Sealed(cipher, nonce, plain);
    UnsealSealed(cipher, nonce, plain);
    var file := new Source(archive.written);
    var target := new Sink();
    result := DecryptStream(file, target, cipher);
    restored := target.written;
    assert restored == plain;
  }
}
