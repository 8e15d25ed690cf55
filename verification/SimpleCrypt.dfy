/**
 SimpleCrypt: a hash-based stream cipher with a MAC, on text. The hash, the MAC, the key
 derivation, UTF-8 and base64 are functions of a library; what is assumed of them are their
 documented laws, and only by the lemmas that need them.
 */
module SimpleCrypt {
  import opened Wrappers
  import opened ByteStrings
  import opened Collections

  const BLOCK: nat := 32
  const SALT_LENGTH: nat := 16
  const MAC_LENGTH: nat := 32

  /** How many counter values fit into four bytes. */
  const COUNTERS: nat := 0x1_0000_0000

  /** The library functions: SHA-256, the key derivation, the MAC, base64 and UTF-8; decoders may fail. */
  datatype Library = Library(
    sha256: bytes -> bytes,
    derive: (bytes, bytes) -> bytes,
    mac: (bytes, bytes) -> bytes,
    toBase64: bytes -> string,
    fromBase64: string -> Option<bytes>,
    toUtf8: string -> bytes,
    fromUtf8: bytes -> Option<string>)

  /** Fixed lengths, decoders that undo their encoders, and no colon in base64. */
  ghost predicate Sound(lib: Library) {
    && (forall x {:trigger lib.sha256(x)} :: |lib.sha256(x)| == 32)
    && (forall k, x {:trigger lib.mac(k, x)} :: |lib.mac(k, x)| == MAC_LENGTH)
    && (forall x {:trigger lib.toBase64(x)} :: lib.fromBase64(lib.toBase64(x)) == Some(x) && ':' !in lib.toBase64(x))
    && (forall t {:trigger lib.toUtf8(t)} :: lib.fromUtf8(lib.toUtf8(t)) == Some(t))
    && (forall x {:trigger lib.fromUtf8(x)} :: lib.fromUtf8(x).Some? ==> lib.toUtf8(lib.fromUtf8(x).value) == x)
  }

  // ---- the stream cipher ----

  /** counter.to_bytes(4, 'big') */
  function BigEndian(n: nat): bytes {
    [n / 0x100_0000 % 256, n / 0x1_0000 % 256, n / 0x100 % 256, n % 256]
  }

  /** The exclusive or of two numbers, bit by bit. */
  function XorBits(a: nat, b: nat): nat {
    if a == 0 && b == 0 then 0 else (a + b) % 2 + 2 * XorBits(a / 2, b / 2)
  }

  function Bit(n: nat, k: nat): nat {
    if k == 0 then n % 2 else Bit(n / 2, k - 1)
  }

  lemma {:induction false} XorHalves(a: nat, b: nat)
    ensures XorBits(a, b) / 2 == XorBits(a / 2, b / 2) && XorBits(a, b) % 2 == (a + b) % 2
  {
  }

  lemma {:induction false} Parities(a: nat, b: nat)
    ensures (a + b) % 2 == (a % 2 + b % 2) % 2
  {
  }

  /** A bit is set exactly if it is set in one of the two numbers. */
  lemma {:induction false} XorBit(a: nat, b: nat, k: nat)
    ensures Bit(XorBits(a, b), k) == (Bit(a, k) + Bit(b, k)) % 2
  {
    XorHalves(a, b);
    Parities(a, b);
    if k > 0 {
      XorBit(a / 2, b / 2, k - 1);
    }
  }

  function PowerOfTwo(k: nat): nat {
    if k == 0 then 1 else 2 * PowerOfTwo(k - 1)
  }

  lemma {:induction false} XorBelow(a: nat, b: nat, k: nat)
    requires a < PowerOfTwo(k) && b < PowerOfTwo(k)
    ensures XorBits(a, b) < PowerOfTwo(k)
  {
    if k > 0 {
      XorBelow(a / 2, b / 2, k - 1);
    }
  }

  function XorByte(a: byte, b: byte): byte {
    assert PowerOfTwo(4) == 16 && PowerOfTwo(8) == 256;
    XorBelow(a, b, 8);
    XorBits(a, b)
  }

  /** The exclusive or of two strings, as far as both reach. */
  function Xor(a: bytes, b: bytes): (r: bytes)
    ensures |r| == if |a| <= |b| then |a| else |b|
  {
    seq(if |a| <= |b| then |a| else |b|, i requires 0 <= i < |a| && i < |b| => XorByte(a[i], b[i]))
  }

  lemma {:induction false} XorTwice(a: bytes, b: bytes)
    requires |a| <= |b|
    ensures Xor(Xor(a, b), b) == a
  {
    forall i | 0 <= i < |a| ensures XorByte(XorByte(a[i], b[i]), b[i]) == a[i] {
      XorBitsTwice(a[i], b[i]);
    }
  }

  lemma {:induction false} XorBitsTwice(a: nat, b: nat)
    ensures XorBits(XorBits(a, b), b) == a
  {
    if a != 0 || b != 0 {
      XorBitsTwice(a / 2, b / 2);
      XorHalves(a, b);
      XorHalves(XorBits(a, b), b);
      LastBit(a, b, XorBits(a, b));
      assert XorBits(XorBits(a, b), b) / 2 == a / 2;
    }
  }

  lemma {:induction false} LastBit(a: nat, b: nat, c: nat)
    requires c % 2 == (a + b) % 2
    ensures (c + b) % 2 == a % 2
  {
  }

  /** The hash of the key and a counter in four bytes. */
  function KeyStream(lib: Library, key: bytes): nat -> bytes {
    (counter: nat) => lib.sha256(key + BigEndian(counter))
  }

  ghost predicate FullBlocks(stream: nat -> bytes) {
    forall counter: nat :: |stream(counter)| == 32
  }

  function Before(done: bytes, rest: Option<bytes>): Option<bytes> {
    match rest
    case None => None
    case Some(more) => Some(done + more)
  }

  /** The blocks from a counter on; absent when the counter outgrows four bytes. */
  function Blocks(stream: nat -> bytes, data: bytes, counter: nat): Option<bytes>
    decreases |data|
  {
    if data == [] then Some([])
    else if counter >= COUNTERS then None
    else
      var size := if |data| < BLOCK then |data| else BLOCK;
      Before(Xor(data[..size], stream(counter)), Blocks(stream, data[size..], counter + 1))
  }

  function StreamCipher(lib: Library, key: bytes, data: bytes): Option<bytes> {
    Blocks(KeyStream(lib, key), data, 0)
  }

  lemma {:induction false} BlocksFit(stream: nat -> bytes, data: bytes, counter: nat)
    ensures Blocks(stream, data, counter).Some? <==> data == [] || |data| <= (COUNTERS - counter) * BLOCK
    decreases |data|
  {
    if data == [] || counter >= COUNTERS {
    } else {
      var size := if |data| < BLOCK then |data| else BLOCK;
      BlocksFit(stream, data[size..], counter + 1);
    }
  }

  lemma {:induction false} HashIsFull(lib: Library, key: bytes)
    requires Sound(lib)
    ensures FullBlocks(KeyStream(lib, key))
  {
    forall counter: nat ensures |KeyStream(lib, key)(counter)| == 32 {
      assert |lib.sha256(key + BigEndian(counter))| == 32;
    }
  }

  /** Running the blocks over their own output gives the data back, the short last block included. */
  lemma {:induction false} BlocksTwice(stream: nat -> bytes, data: bytes, counter: nat)
    requires FullBlocks(stream) && Blocks(stream, data, counter).Some?
    ensures var out := Blocks(stream, data, counter).value;
      |out| == |data| && Blocks(stream, out, counter) == Some(data)
    decreases |data|
  {
    if data == [] {
    } else {
      var size := if |data| < BLOCK then |data| else BLOCK;
      var first, rest := Xor(data[..size], stream(counter)), Blocks(stream, data[size..], counter + 1).value;
      BlocksTwice(stream, data[size..], counter + 1);
      var out := first + rest;
      assert out[..size] == first && out[size..] == rest;
      XorTwice(data[..size], stream(counter));
      assert data[..size] + data[size..] == data;
    }
  }

  /** The stream cipher works on up to 2^32 blocks, and undoes itself there. */
  lemma {:induction false} StreamCipherTwice(lib: Library, key: bytes, data: bytes)
    requires Sound(lib)
    ensures StreamCipher(lib, key, data).Some? <==> |data| <= COUNTERS * BLOCK
    ensures StreamCipher(lib, key, data).Some? ==>
      StreamCipher(lib, key, StreamCipher(lib, key, data).value) == Some(data)
  {
    BlocksFit(KeyStream(lib, key), data, 0);
    if StreamCipher(lib, key, data).Some? {
      HashIsFull(lib, key);
      BlocksTwice(KeyStream(lib, key), data, 0);
    }
  }

  /** The number that four bytes stand for, the first one being the highest. */
  function NumberOf(b: bytes): nat
    requires |b| == 4
  {
    0x100_0000 * b[0] as nat + 0x1_0000 * b[1] as nat + 0x100 * b[2] as nat + b[3] as nat
  }

  lemma {:induction false} BigEndianNumber(n: nat)
    requires n < COUNTERS
    ensures NumberOf(BigEndian(n)) == n
  {
    assert n / 0x100 / 0x100 == n / 0x1_0000 && n / 0x1_0000 / 0x100 == n / 0x100_0000;
  }

  lemma {:induction false} FirstBlock(stream: nat -> bytes, data: bytes, counter: nat, size: nat)
    requires FullBlocks(stream) && Blocks(stream, data, counter).Some? && data != []
    requires size == if |data| < BLOCK then |data| else BLOCK
    ensures counter < COUNTERS && Blocks(stream, data[size..], counter + 1).Some?
    ensures var out := Blocks(stream, data, counter).value;
      && |out| == |data|
      && out[..size] == Xor(data[..size], stream(counter))
      && out[size..] == Blocks(stream, data[size..], counter + 1).value
  {
    BlocksTwice(stream, data, counter);
    assert |stream(counter)| == 32;
  }

  lemma {:induction false} DropTwice(s: bytes, i: nat, j: nat)
    requires i + j <= |s|
    ensures s[i..][j..] == s[i + j..]
  {
  }

  /** What the blocks from a given one on make of the rest of the data is the rest of the output. */
  lemma {:induction false} BlocksBehind(stream: nat -> bytes, data: bytes, counter: nat, block: nat)
    requires FullBlocks(stream) && Blocks(stream, data, counter).Some? && BLOCK * block <= |data|
    ensures |Blocks(stream, data, counter).value| == |data|
    ensures Blocks(stream, data[BLOCK * block..], counter + block)
         == Some(Blocks(stream, data, counter).value[BLOCK * block..])
    decreases block
  {
    BlocksTwice(stream, data, counter);
    if block == 0 {
      assert data[0..] == data;
    } else {
      FirstBlock(stream, data, counter, BLOCK);
      BlocksBehind(stream, data[BLOCK..], counter + 1, block - 1);
      DropTwice(data, BLOCK, BLOCK * (block - 1));
      DropTwice(Blocks(stream, data, counter).value, BLOCK, BLOCK * (block - 1));
    }
  }

  predicate XorAt(out: bytes, data: bytes, i: nat, hash: byte) {
    i < |out| && i < |data| && out[i] == XorByte(data[i], hash)
  }

  lemma {:induction false} XorAtBehind(out: bytes, data: bytes, from: nat, size: nat, hash: bytes, k: nat)
    requires from + size <= |out| == |data| && k < size <= |hash|
    requires out[from..][..size] == Xor(data[from..][..size], hash)
    ensures XorAt(out, data, from + k, hash[k])
  {
    assert out[from + k] == out[from..][..size][k] && data[from + k] == data[from..][..size][k];
  }

  lemma {:induction false} ByteOfBlocks(stream: nat -> bytes, data: bytes, block: nat, k: nat)
    requires FullBlocks(stream) && Blocks(stream, data, 0).Some?
    requires k < BLOCK && BLOCK * block + k < |data|
    ensures |stream(block)| == 32 && block < COUNTERS
    ensures XorAt(Blocks(stream, data, 0).value, data, BLOCK * block + k, stream(block)[k])
  {
    var from := BLOCK * block;
    var rest := data[from..];
    var size := if |rest| < BLOCK then |rest| else BLOCK;
    BlocksBehind(stream, data, 0, block);
    FirstBlock(stream, rest, block, size);
    XorAtBehind(Blocks(stream, data, 0).value, data, from, size, stream(block), k);
  }

  /** Byte i is the exclusive or with a byte of the hash of the key and the number of its block, in four bytes. */
  lemma {:induction false} StreamByte(lib: Library, key: bytes, data: bytes, i: nat) returns (counter: bytes)
    requires Sound(lib) && StreamCipher(lib, key, data).Some? && i < |data|
    ensures |counter| == 4 && NumberOf(counter) == i / 32 && |lib.sha256(key + counter)| == 32
    ensures XorAt(StreamCipher(lib, key, data).value, data, i, lib.sha256(key + counter)[i % 32])
  {
    counter := BigEndian(i / 32);
    HashIsFull(lib, key);
    ByteOfBlocks(KeyStream(lib, key), data, i / 32, i % 32);
    BigEndianNumber(i / 32);
  }

  lemma {:induction false} BeforeNothing(rest: Option<bytes>)
    ensures Before([], rest) == rest
  {
    if rest.Some? {
      assert [] + rest.value == rest.value;
    }
  }

  /** One block more is done. */
  lemma {:induction false} NextBlock(done: bytes, cipher: bytes, rest: Option<bytes>)
    ensures Before(done, Before(cipher, rest)) == Before(done + cipher, rest)
  {
    if rest.Some? {
      ConcatAssociative(done, cipher, rest.value);
    }
  }

  /** Where the block that starts at i ends; the last one may be short. */
  function BlockEnd(length: nat, i: nat): (end: nat)
    requires i < length
    ensures i < end <= length
  {
    if i + BLOCK <= length then i + BLOCK else length
  }

  /** The loop stands at i: what is done, and what is still to come, make up the output. */
  ghost predicate OnTrack(lib: Library, key: bytes, data: bytes, i: nat, counter: nat, done: bytes) {
    i <= |data| && Before(done, Blocks(KeyStream(lib, key), data[i..], counter)) == StreamCipher(lib, key, data)
  }

  lemma {:induction false} TrackStarts(lib: Library, key: bytes, data: bytes)
    ensures OnTrack(lib, key, data, 0, 0, [])
  {
    assert data[0..] == data;
    BeforeNothing(Blocks(KeyStream(lib, key), data, 0));
  }

  lemma {:induction false} TrackEnds(lib: Library, key: bytes, data: bytes, counter: nat, done: bytes)
    requires OnTrack(lib, key, data, |data|, counter, done)
    ensures StreamCipher(lib, key, data) == Some(done)
  {
    assert data[|data|..] == [] && done + [] == done;
  }

  /** A turn of the loop; when the counter outgrows four bytes there is no output. */
  lemma {:induction false} TrackGoesOn(lib: Library, key: bytes, data: bytes, i: nat, counter: nat, done: bytes)
    requires OnTrack(lib, key, data, i, counter, done) && i < |data|
    ensures var end := BlockEnd(|data|, i);
      if counter >= COUNTERS then StreamCipher(lib, key, data).None?
      else OnTrack(lib, key, data, end, counter + 1, done + Xor(data[i..end], KeyStream(lib, key)(counter)))
  {
    var end := BlockEnd(|data|, i);
    BlockAt(KeyStream(lib, key), data, i, end, counter);
    var stream := KeyStream(lib, key);
    NextBlock(done, Xor(data[i..end], stream(counter)), Blocks(stream, data[end..], counter + 1));
  }

  lemma {:induction false} BlockAt(stream: nat -> bytes, data: bytes, i: nat, end: nat, counter: nat)
    requires i < |data| && end == BlockEnd(|data|, i)
    ensures Blocks(stream, data[i..], counter) ==
      if counter >= COUNTERS then None
      else Before(Xor(data[i..end], stream(counter)), Blocks(stream, data[end..], counter + 1))
  {
    assert data[i..][..end - i] == data[i..end] && data[i..][end - i..] == data[end..];
  }

  /** stream_cipher; absent for the exception that to_bytes raises. */
  method RunStreamCipher(lib: Library, key: bytes, data: bytes) returns (output: Option<bytes>)
    ensures output == StreamCipher(lib, key, data)
  {
    var done: bytes := [];
    var counter: nat := 0;
    var i: nat := 0;
    TrackStarts(lib, key, data);
    while i < |data|
      invariant OnTrack(lib, key, data, i, counter, done)
    {
      TrackGoesOn(lib, key, data, i, counter, done);
      if counter >= COUNTERS {
        return None;
      }
      var end := BlockEnd(|data|, i);
      done := done + Xor(data[i..end], KeyStream(lib, key)(counter));
      counter := counter + 1;
      i := end;
    }
    TrackEnds(lib, key, data, counter, done);
    return Some(done);
  }

  // ---- encrypt and decrypt ----

  datatype Result = Ok(text: string) | Failed

  function Upto(s: bytes, n: nat): bytes {
    if |s| < n then s else s[..n]
  }

  function From(s: bytes, n: nat): bytes {
    if |s| < n then [] else s[n..]
  }

  /** encrypt, with the random salt as a parameter. */
  function Encrypt(lib: Library, password: bytes, text: string, salt: bytes): Result {
    var key := lib.derive(password, salt);
    match StreamCipher(lib, key, lib.toUtf8(text))
    case None => Failed
    case Some(ciphertext) => Ok(lib.toBase64(salt + lib.mac(key, ciphertext) + ciphertext))
  }

  /** decrypt; Failed for malformed base64, a wrong MAC and malformed UTF-8. */
  function Decrypt(lib: Library, password: bytes, text: string): Result {
    match lib.fromBase64(text)
    case None => Failed
    case Some(data) =>
      var salt, mac, ciphertext :=
        Upto(data, SALT_LENGTH), Upto(From(data, SALT_LENGTH), MAC_LENGTH), From(data, SALT_LENGTH + MAC_LENGTH);
      var key := lib.derive(password, salt);
      if mac != lib.mac(key, ciphertext) then Failed
      else
        match StreamCipher(lib, key, ciphertext)
        case None => Failed
        case Some(plain) =>
          match lib.fromUtf8(plain)
          case None => Failed
          case Some(t) => Ok(t)
  }

  lemma {:induction false} Parts(salt: bytes, mac: bytes, ciphertext: bytes)
    requires |salt| == SALT_LENGTH && |mac| == MAC_LENGTH
    ensures var data := salt + mac + ciphertext;
      && Upto(data, SALT_LENGTH) == salt
      && Upto(From(data, SALT_LENGTH), MAC_LENGTH) == mac
      && From(data, SALT_LENGTH + MAC_LENGTH) == ciphertext
  {
  }

  /** Decrypting what was encrypted gives the text back, for every text of up to 2^32 blocks. */
  lemma {:induction false} DecryptEncrypt(lib: Library, password: bytes, text: string, salt: bytes)
    requires Sound(lib) && |salt| == SALT_LENGTH
    ensures Encrypt(lib, password, text, salt).Ok? <==> |lib.toUtf8(text)| <= COUNTERS * BLOCK
    ensures var r := Encrypt(lib, password, text, salt);
      r.Ok? ==> Decrypt(lib, password, r.text) == Ok(text)
  {
    var key, plain := lib.derive(password, salt), lib.toUtf8(text);
    StreamCipherTwice(lib, key, plain);
    if StreamCipher(lib, key, plain).Some? {
      var ciphertext := StreamCipher(lib, key, plain).value;
      Parts(salt, lib.mac(key, ciphertext), ciphertext);
      assert lib.fromBase64(lib.toBase64(salt + lib.mac(key, ciphertext) + ciphertext)) ==
        Some(salt + lib.mac(key, ciphertext) + ciphertext);
    }
  }

  /** What is in front of base64: 16 bytes of salt, 32 bytes of MAC, then the ciphertext under the derived key. */
  lemma {:induction false} EncryptedLayout(lib: Library, password: bytes, text: string, salt: bytes)
    requires Sound(lib) && |salt| == SALT_LENGTH && Encrypt(lib, password, text, salt).Ok?
    ensures lib.fromBase64(Encrypt(lib, password, text, salt).text).Some?
    ensures var data := lib.fromBase64(Encrypt(lib, password, text, salt).text).value;
      var key := lib.derive(password, salt);
      && |data| >= 48 && data[..16] == salt && data[16..48] == lib.mac(key, data[48..])
      && StreamCipher(lib, key, lib.toUtf8(text)) == Some(data[48..])
  {
    var key := lib.derive(password, salt);
    var ciphertext := StreamCipher(lib, key, lib.toUtf8(text)).value;
    var data := salt + lib.mac(key, ciphertext) + ciphertext;
    assert lib.fromBase64(lib.toBase64(data)) == Some(data);
    assert |lib.mac(key, ciphertext)| == 32;
    assert data[..16] == salt && data[16..48] == lib.mac(key, ciphertext) && data[48..] == ciphertext;
  }

  lemma {:induction false} Whole(data: bytes)
    requires |Upto(From(data, SALT_LENGTH), MAC_LENGTH)| == MAC_LENGTH
    ensures |Upto(data, SALT_LENGTH)| == SALT_LENGTH
    ensures data == Upto(data, SALT_LENGTH) + Upto(From(data, SALT_LENGTH), MAC_LENGTH)
                    + From(data, SALT_LENGTH + MAC_LENGTH)
  {
  }

  /** A text is accepted only if it is what encrypting the result gives, with the salt in front of it. */
  lemma {:induction false} EncryptDecrypt(lib: Library, password: bytes, text: string)
    requires Sound(lib) && Decrypt(lib, password, text).Ok?
    ensures lib.fromBase64(text).Some?
    ensures var data := lib.fromBase64(text).value;
      Encrypt(lib, password, Decrypt(lib, password, text).text, Upto(data, SALT_LENGTH)) == Ok(lib.toBase64(data))
  {
    var data := lib.fromBase64(text).value;
    var salt, ciphertext := Upto(data, SALT_LENGTH), From(data, SALT_LENGTH + MAC_LENGTH);
    var key := lib.derive(password, salt);
    assert |lib.mac(key, ciphertext)| == MAC_LENGTH;
    Whole(data);
    StreamCipherTwice(lib, key, ciphertext);
  }

  // ---- check_crypt ----

  const CLEAR: string := "clear:"

  /** check_crypt encrypts what is marked as clear text, and decrypts everything else. */
  function CheckCrypt(lib: Library, password: bytes, param: string, salt: bytes): Result {
    if CLEAR <= param then Encrypt(lib, password, param[|CLEAR|..], salt) else Decrypt(lib, password, param)
  }

  /** A clear parameter that is checked twice comes back without its mark. */
  lemma {:induction false} CheckTwice(lib: Library, password: bytes, text: string, salt: bytes, other: bytes)
    requires Sound(lib) && |salt| == SALT_LENGTH
    requires CheckCrypt(lib, password, CLEAR + text, salt).Ok?
    ensures CheckCrypt(lib, password, CheckCrypt(lib, password, CLEAR + text, salt).text, other) == Ok(text)
  {
    assert (CLEAR + text)[|CLEAR|..] == text;
    DecryptEncrypt(lib, password, text, salt);
    var encrypted := Encrypt(lib, password, text, salt).text;
    ClearHasColon(encrypted);
  }

  lemma {:induction false} ClearHasColon(s: string)
    ensures CLEAR <= s ==> ':' in s
  {
    if CLEAR <= s {
      assert s[5] == CLEAR[5];
    }
  }
}
