/** Cipher feedback mode as the packet encryption uses it: unrolled eight blocks at
    a time, with a partial last block, in place or between two buffers.  The block
    cipher is an arbitrary function on blocks. */
module Cfb {
  type Bytes = seq<bv8>

  /** Byte-wise exclusive or, as long as the shorter argument. */
  function Xor(a: Bytes, b: Bytes): (r: Bytes)
    ensures |r| == if |a| <= |b| then |a| else |b|
    ensures forall i :: 0 <= i < |r| ==> r[i] == a[i] ^ b[i]
  {
    seq(if |a| <= |b| then |a| else |b|, i requires 0 <= i < |a| && i < |b| => a[i] ^ b[i])
  }

  /** A function from blocks of n bytes to blocks of n bytes. */
  ghost predicate IsCipher(e: Bytes -> Bytes, n: nat) {
    n > 0 && forall b :: |b| == n ==> |e(b)| == n
  }

  // ---------------------------------------------------------------- the mode

  /** Encryption: each block is combined with the encrypted previous ciphertext. */
  ghost function Encrypted(e: Bytes -> Bytes, n: nat, key: Bytes, plain: Bytes): (c: Bytes)
    requires IsCipher(e, n) && |key| == n
    ensures |c| == |plain|
    decreases |plain|
  {
    if |plain| < n then Xor(plain, key)
    else
      var c := Xor(plain[..n], key);
      c + Encrypted(e, n, e(c), plain[n..])
  }

  ghost function Decrypted(e: Bytes -> Bytes, n: nat, key: Bytes, cipher: Bytes): (p: Bytes)
    requires IsCipher(e, n) && |key| == n
    ensures |p| == |cipher|
    decreases |cipher|
  {
    if |cipher| < n then Xor(cipher, key)
    else Xor(cipher[..n], key) + Decrypted(e, n, e(cipher[..n]), cipher[n..])
  }

  lemma XorTwice(a: Bytes, k: Bytes)
    requires |a| <= |k|
    ensures Xor(Xor(a, k), k) == a
  {
    var r := Xor(Xor(a, k), k);
    forall i | 0 <= i < |a| ensures r[i] == a[i] { XorByte(a[i], k[i]); }
  }

  lemma XorByte(x: bv8, k: bv8)
    ensures (x ^ k) ^ k == x
  {
  }

  lemma {:induction false} EncryptThenDecrypt(e: Bytes -> Bytes, n: nat, key: Bytes, text: Bytes)
    requires IsCipher(e, n) && |key| == n
    ensures Decrypted(e, n, key, Encrypted(e, n, key, text)) == text
    decreases |text|
  {
    hide Xor;
    if |text| < n {
      XorTwice(text, key);
    } else {
      var c := Xor(text[..n], key);
      XorTwice(text[..n], key);
      EncryptThenDecrypt(e, n, e(c), text[n..]);
      var enc := Encrypted(e, n, key, text);
      assert enc[..n] == c && enc[n..] == Encrypted(e, n, e(c), text[n..]);
      assert text == text[..n] + text[n..];
    }
  }

  lemma {:induction false} DecryptThenEncrypt(e: Bytes -> Bytes, n: nat, key: Bytes, text: Bytes)
    requires IsCipher(e, n) && |key| == n
    ensures Encrypted(e, n, key, Decrypted(e, n, key, text)) == text
    decreases |text|
  {
    hide Xor;
    if |text| < n {
      XorTwice(text, key);
    } else {
      var p := Xor(text[..n], key);
      XorTwice(text[..n], key);
      DecryptThenEncrypt(e, n, e(text[..n]), text[n..]);
      var dec := Decrypted(e, n, key, text);
      assert dec[..n] == p && dec[n..] == Decrypted(e, n, e(text[..n]), text[n..]);
      assert text == text[..n] + text[n..];
    }
  }

  /** Decryption undoes encryption, partial last block included, and the other way
      round. */
  lemma RoundTrip(e: Bytes -> Bytes, n: nat, key: Bytes, text: Bytes)
    requires IsCipher(e, n) && |key| == n
    ensures Decrypted(e, n, key, Encrypted(e, n, key, text)) == text
    ensures Encrypted(e, n, key, Decrypted(e, n, key, text)) == text
  {
    hide Encrypted, Decrypted;
    EncryptThenDecrypt(e, n, key, text);
    DecryptThenEncrypt(e, n, key, text);
  }

  /** j is the start of block number k, counted from 1. */
  ghost predicate BlockAt(n: nat, k: nat, j: nat) { 0 < k && j == (k - 1) * n }

  lemma PreviousBlock(n: nat, k: nat, j: nat)
    requires BlockAt(n, k, j)
    ensures if k == 1 then j == 0 else n <= j && BlockAt(n, k - 1, j - n)
  {
    assert k > 1 ==> (k - 1) * n == (k - 2) * n + n;
  }

  lemma Shifted(s: Bytes, n: nat, j: nat)
    requires n <= j && j + n <= |s|
    ensures s[n..][j..] == s[j + n..] && s[n..][j - n..j] == s[j..j + n]
  {
  }

  lemma FirstBlock(e: Bytes -> Bytes, n: nat, key: Bytes, cipher: Bytes)
    requires IsCipher(e, n) && |key| == n <= |cipher|
    ensures Decrypted(e, n, key, cipher)[n..] == Decrypted(e, n, e(cipher[..n]), cipher[n..])
  {
  }

  lemma {:induction false} DecryptsFrom(e: Bytes -> Bytes, n: nat, key: Bytes, cipher: Bytes, k: nat, j: nat)
    requires IsCipher(e, n) && |key| == n && BlockAt(n, k, j) && j + n <= |cipher|
    ensures Decrypted(e, n, key, cipher)[j + n..] == Decrypted(e, n, e(cipher[j..j + n]), cipher[j + n..])
    decreases k
  {
    hide Decrypted, BlockAt;
    FirstBlock(e, n, key, cipher);
    PreviousBlock(n, k, j);
    if k > 1 {
      DecryptsFrom(e, n, e(cipher[..n]), cipher[n..], k - 1, j - n);
      Shifted(cipher, n, j);
      Shifted(Decrypted(e, n, key, cipher), n, j);
    }
  }

  /** An error in the ciphertext stays within its block and the next one: what
      decrypts behind a block depends only on the ciphertext from that block on. */
  lemma DecryptsFromAnyBlock(e: Bytes -> Bytes, n: nat, key: Bytes, cipher: Bytes, k: nat)
    requires IsCipher(e, n) && |key| == n && 0 < k && k * n <= |cipher|
    ensures (k - 1) * n >= 0
    ensures Decrypted(e, n, key, cipher)[k * n..] == Decrypted(e, n, e(cipher[(k - 1) * n..k * n]), cipher[k * n..])
  {
    hide Decrypted;
    var j := (k - 1) * n;
    assert j + n == k * n && BlockAt(n, k, j);
    DecryptsFrom(e, n, key, cipher, k, j);
  }

  /** What block j of the ciphertext is combined with: the key, or the encryption of
      the block before it. */
  ghost function Mask(e: Bytes -> Bytes, n: nat, key: Bytes, cipher: Bytes, j: nat): Bytes
    requires j > 0 ==> 0 <= (j - 1) * n <= j * n <= |cipher|
  {
    if j == 0 then key else e(cipher[(j - 1) * n..j * n])
  }

  lemma FirstBytes(e: Bytes -> Bytes, n: nat, key: Bytes, cipher: Bytes, i: nat)
    requires IsCipher(e, n) && |key| == n && i < n && i < |cipher|
    ensures Decrypted(e, n, key, cipher)[i] == cipher[i] ^ key[i]
  {
  }

  lemma BlockOf(n: nat, i: nat)
    requires n > 0
    ensures 0 <= (i / n) * n <= i && i - (i / n) * n == i % n < n
    ensures i / n > 0 ==> 0 <= (i / n - 1) * n && (i / n) * n == (i / n - 1) * n + n && BlockAt(n, i / n, (i / n - 1) * n)
  {
  }

  /** Cipher feedback mode, byte by byte: byte i is combined with byte i mod n of its
      block's mask, in the incomplete last block as in all the others. */
  lemma DecryptedAt(e: Bytes -> Bytes, n: nat, key: Bytes, cipher: Bytes, i: nat)
    requires IsCipher(e, n) && |key| == n && i < |cipher|
    ensures var j := i / n;
            && (j > 0 ==> 0 <= (j - 1) * n <= j * n <= |cipher|)
            && |Mask(e, n, key, cipher, j)| == n
            && Decrypted(e, n, key, cipher)[i] == cipher[i] ^ Mask(e, n, key, cipher, j)[i % n]
  {
    hide Decrypted, BlockAt;
    BlockOf(n, i);
    var j := i / n;
    if j == 0 {
      FirstBytes(e, n, key, cipher, i);
    } else {
      var b := (j - 1) * n;
      DecryptsFrom(e, n, key, cipher, j, b);
      FirstBytes(e, n, e(cipher[b..b + n]), cipher[b + n..], i - b - n);
      assert Decrypted(e, n, key, cipher)[b + n..][i - b - n] == Decrypted(e, n, key, cipher)[i];
    }
  }

  lemma EncryptedAt(e: Bytes -> Bytes, n: nat, key: Bytes, plain: Bytes, i: nat)
    requires IsCipher(e, n) && |key| == n && i < |plain|
    ensures var c, j := Encrypted(e, n, key, plain), i / n;
            && (j > 0 ==> 0 <= (j - 1) * n <= j * n <= |c|)
            && |Mask(e, n, key, c, j)| == n
            && c[i] == plain[i] ^ Mask(e, n, key, c, j)[i % n]
  {
    hide Encrypted, Decrypted, Mask;
    var c := Encrypted(e, n, key, plain);
    RoundTrip(e, n, key, plain);
    DecryptedAt(e, n, key, c, i);
    XorByte(c[i], Mask(e, n, key, c, i / n)[i % n]);
  }

  // ------------------------------------------------------------- in the buffers

  /** XORBytes: dst[at..] becomes src[at..] ^ key, as far as key and src reach. */
  method XorInto(dst: array<bv8>, src: array<bv8>, at: nat, key: Bytes)
    requires at <= src.Length == dst.Length
    modifies dst
    ensures var r := Xor(old(src[at..]), key); dst[..] == old(dst[..])[..at] + r + old(dst[..])[at + |r|..]
    ensures src != dst ==> src[..] == old(src[..])
  {
    ghost var s, d := src[..], dst[..];
    var n := if src.Length - at <= |key| then src.Length - at else |key|;
    var i := 0;
    while i < n
      invariant 0 <= i <= n && (src != dst ==> src[..] == s)
      invariant forall j :: at + i <= j < src.Length ==> src[j] == s[j]
      invariant forall j :: 0 <= j < dst.Length ==> dst[j] == if at <= j < at + i then s[j] ^ key[j - at] else d[j]
    {
      dst[at + i] := src[at + i] ^ key[i];
      i := i + 1;
    }
    ghost var r := Xor(s[at..], key);
    assert dst[..] == d[..at] + r + d[at + |r|..];
  }

  /** The first `base` bytes are done, the rest of the source is untouched. */
  ghost predicate EncryptedTo(e: Bytes -> Bytes, n: nat, iv: Bytes, text: Bytes, base: nat, tbl: Bytes, dst: Bytes, src: Bytes) {
    && IsCipher(e, n) && |iv| == n == |tbl| && base <= |text| == |src| == |dst|
    && src[base..] == text[base..]
    && Encrypted(e, n, iv, text) == dst[..base] + Encrypted(e, n, tbl, text[base..])
  }

  ghost predicate DecryptedTo(e: Bytes -> Bytes, n: nat, iv: Bytes, text: Bytes, base: nat, tbl: Bytes, dst: Bytes, src: Bytes) {
    && IsCipher(e, n) && |iv| == n == |tbl| && base <= |text| == |src| == |dst|
    && src[base..] == text[base..]
    && Decrypted(e, n, iv, text) == dst[..base] + Decrypted(e, n, tbl, text[base..])
  }

  lemma EncryptedNext(e: Bytes -> Bytes, n: nat, iv: Bytes, text: Bytes, base: nat, tbl: Bytes, dst: Bytes, src: Bytes, dst': Bytes, src': Bytes)
    requires EncryptedTo(e, n, iv, text, base, tbl, dst, src) && base + n <= |text|
    requires dst' == dst[..base] + Xor(src[base..], tbl) + dst[base + n..] && |src'| == |src| && src'[base + n..] == src[base + n..]
    ensures EncryptedTo(e, n, iv, text, base + n, e(dst'[base..base + n]), dst', src')
  {
    var c := Xor(text[base..][..n], tbl);
    assert Xor(src[base..], tbl) == c == dst'[base..base + n];
    assert text[base..][n..] == text[base + n..];
    assert dst[..base] + (c + Encrypted(e, n, e(c), text[base + n..])) == (dst[..base] + c) + Encrypted(e, n, e(c), text[base + n..]);
    assert dst'[..base + n] == dst[..base] + c;
    assert src'[base + n..] == src[base..][n..] == text[base..][n..];
  }

  lemma DecryptedNext(e: Bytes -> Bytes, n: nat, iv: Bytes, text: Bytes, base: nat, tbl: Bytes, dst: Bytes, src: Bytes, dst': Bytes, src': Bytes)
    requires DecryptedTo(e, n, iv, text, base, tbl, dst, src) && base + n <= |text|
    requires dst' == dst[..base] + Xor(src[base..], tbl) + dst[base + n..] && |src'| == |src| && src'[base + n..] == src[base + n..]
    ensures DecryptedTo(e, n, iv, text, base + n, e(src[base..base + n]), dst', src')
  {
    var c := text[base..][..n];
    assert src[base..base + n] == src[base..][..n] == c;
    assert Xor(src[base..], tbl) == Xor(c, tbl) == dst'[base..base + n];
    assert text[base..][n..] == text[base + n..];
    assert dst[..base] + (Xor(c, tbl) + Decrypted(e, n, e(c), text[base + n..])) == (dst[..base] + Xor(c, tbl)) + Decrypted(e, n, e(c), text[base + n..]);
    assert dst'[..base + n] == dst[..base] + Xor(c, tbl);
    assert src'[base + n..] == src[base..][n..] == text[base..][n..];
  }

  /** One block: combine, then encrypt the result for the next one. */
  method EncryptBlock(e: Bytes -> Bytes, n: nat, dst: array<bv8>, src: array<bv8>, base: nat, tbl: Bytes, ghost iv: Bytes, ghost text: Bytes)
      returns (tbl': Bytes)
    requires EncryptedTo(e, n, iv, text, base, tbl, dst[..], src[..]) && base + n <= |text|
    modifies dst
    ensures EncryptedTo(e, n, iv, text, base + n, tbl', dst[..], src[..])
  {
    hide Encrypted, IsCipher;
    ghost var d, s := dst[..], src[..];
    XorInto(dst, src, base, tbl);
    EncryptedNext(e, n, iv, text, base, tbl, d, s, dst[..], src[..]);
    tbl' := e(dst[base..base + n]);
  }

  /** One block: encrypt the ciphertext before it is overwritten, then combine. */
  method DecryptBlock(e: Bytes -> Bytes, n: nat, dst: array<bv8>, src: array<bv8>, base: nat, tbl: Bytes, ghost iv: Bytes, ghost text: Bytes)
      returns (next: Bytes)
    requires DecryptedTo(e, n, iv, text, base, tbl, dst[..], src[..]) && base + n <= |text|
    modifies dst
    ensures DecryptedTo(e, n, iv, text, base + n, next, dst[..], src[..])
  {
    hide Decrypted, IsCipher;
    ghost var d, s := dst[..], src[..];
    next := e(src[base..base + n]);
    XorInto(dst, src, base, tbl);
    DecryptedNext(e, n, iv, text, base, tbl, d, s, dst[..], src[..]);
  }

  /** The partial block at the end, possibly empty. */
  method EncryptTail(e: Bytes -> Bytes, n: nat, dst: array<bv8>, src: array<bv8>, base: nat, tbl: Bytes, ghost iv: Bytes, ghost text: Bytes)
    requires EncryptedTo(e, n, iv, text, base, tbl, dst[..], src[..]) && |text| < base + n
    modifies dst
    ensures dst[..] == Encrypted(e, n, iv, text)
  {
    XorInto(dst, src, base, tbl);
  }

  method DecryptTail(e: Bytes -> Bytes, n: nat, dst: array<bv8>, src: array<bv8>, base: nat, tbl: Bytes, ghost iv: Bytes, ghost text: Bytes)
    requires DecryptedTo(e, n, iv, text, base, tbl, dst[..], src[..]) && |text| < base + n
    modifies dst
    ensures dst[..] == Decrypted(e, n, iv, text)
  {
    XorInto(dst, src, base, tbl);
  }

  /** How many whole blocks, groups of eight and blocks left over there are. */
  lemma Counts(len: nat, n: nat)
    requires n == 8 || n == 16
    ensures var blocks := len / n; var groups, left := blocks / 8, blocks % 8;
            var base := if n == 8 then 64 * groups else 128 * groups;
            0 <= left < 8 && base + n * left <= len < base + n * left + n
  {
  }

  /** One round of the unrolled loop. */
  method EncryptEight(e: Bytes -> Bytes, n: nat, dst: array<bv8>, src: array<bv8>, base: nat, tbl: Bytes, ghost key: Bytes, ghost text: Bytes)
      returns (tbl': Bytes)
    requires EncryptedTo(e, n, key, text, base, tbl, dst[..], src[..]) && base + 8 * n <= |text|
    modifies dst
    ensures EncryptedTo(e, n, key, text, base + 8 * n, tbl', dst[..], src[..])
  {
    hide EncryptedTo;
    tbl' := EncryptBlock(e, n, dst, src, base, tbl, key, text);
    tbl' := EncryptBlock(e, n, dst, src, base + n, tbl', key, text);
    tbl' := EncryptBlock(e, n, dst, src, base + 2 * n, tbl', key, text);
    tbl' := EncryptBlock(e, n, dst, src, base + 3 * n, tbl', key, text);
    tbl' := EncryptBlock(e, n, dst, src, base + 4 * n, tbl', key, text);
    tbl' := EncryptBlock(e, n, dst, src, base + 5 * n, tbl', key, text);
    tbl' := EncryptBlock(e, n, dst, src, base + 6 * n, tbl', key, text);
    tbl' := EncryptBlock(e, n, dst, src, base + 7 * n, tbl', key, text);
  }

  /** encrypt8 and encrypt16: groups of eight blocks, then up to seven more, then
      the partial block.  `dst` may be `src`. */
  method Encrypt(e: Bytes -> Bytes, n: nat, dst: array<bv8>, src: array<bv8>, iv: Bytes)
    requires (n == 8 || n == 16) && IsCipher(e, n) && |iv| == n && src.Length == dst.Length
    modifies dst
    ensures dst[..] == Encrypted(e, n, e(iv), old(src[..]))
  {
    hide EncryptedTo, Encrypted, IsCipher;
    ghost var text := src[..];
    var tbl := e(iv);
    EncryptedStart(e, n, iv, text, dst[..]);
    Counts(src.Length, n);
    var blocks := src.Length / n;
    var groups, left := blocks / 8, blocks % 8;
    var base, g := 0, 0;
    while g < groups
      invariant 0 <= g <= groups && base == (if n == 8 then 64 * g else 128 * g)
      invariant EncryptedTo(e, n, e(iv), text, base, tbl, dst[..], src[..])
    {
      tbl := EncryptEight(e, n, dst, src, base, tbl, e(iv), text);
      base := base + 8 * n;
      g := g + 1;
    }
    base, tbl := EncryptLeft(e, n, dst, src, base, left, tbl, e(iv), text);
    EncryptTail(e, n, dst, src, base, tbl, e(iv), text);
  }

  lemma EncryptedStart(e: Bytes -> Bytes, n: nat, iv: Bytes, text: Bytes, dst: Bytes)
    requires IsCipher(e, n) && |iv| == n && |dst| == |text|
    ensures EncryptedTo(e, n, e(iv), text, 0, e(iv), dst, text)
  {
    assert text[0..] == text && dst[..0] == [];
  }

  /** The switch with fallthrough: one block for every case passed. */
  method EncryptLeft(e: Bytes -> Bytes, n: nat, dst: array<bv8>, src: array<bv8>, base: nat, left: nat, tbl: Bytes, ghost key: Bytes, ghost text: Bytes)
      returns (base': nat, tbl': Bytes)
    requires (n == 8 || n == 16) && left < 8 && base + n * left <= |text|
    requires EncryptedTo(e, n, key, text, base, tbl, dst[..], src[..])
    modifies dst
    ensures base' == base + n * left && EncryptedTo(e, n, key, text, base', tbl', dst[..], src[..])
  {
    hide EncryptedTo;
    base', tbl' := base, tbl;
    if left >= 7 {
      tbl' := EncryptBlock(e, n, dst, src, base', tbl', key, text);
      base' := base' + n;
    }
    if left >= 6 {
      tbl' := EncryptBlock(e, n, dst, src, base', tbl', key, text);
      base' := base' + n;
    }
    if left >= 5 {
      tbl' := EncryptBlock(e, n, dst, src, base', tbl', key, text);
      base' := base' + n;
    }
    if left >= 4 {
      tbl' := EncryptBlock(e, n, dst, src, base', tbl', key, text);
      base' := base' + n;
    }
    if left >= 3 {
      tbl' := EncryptBlock(e, n, dst, src, base', tbl', key, text);
      base' := base' + n;
    }
    if left >= 2 {
      tbl' := EncryptBlock(e, n, dst, src, base', tbl', key, text);
      base' := base' + n;
    }
    if left >= 1 {
      tbl' := EncryptBlock(e, n, dst, src, base', tbl', key, text);
      base' := base' + n;
    }
  }

  /** One round of the unrolled loop: the two key buffers take turns. */
  method DecryptEight(e: Bytes -> Bytes, n: nat, dst: array<bv8>, src: array<bv8>, base: nat, tbl: Bytes, ghost key: Bytes, ghost text: Bytes)
      returns (tbl': Bytes)
    requires DecryptedTo(e, n, key, text, base, tbl, dst[..], src[..]) && base + 8 * n <= |text|
    modifies dst
    ensures DecryptedTo(e, n, key, text, base + 8 * n, tbl', dst[..], src[..])
  {
    hide DecryptedTo;
    var next := DecryptBlock(e, n, dst, src, base, tbl, key, text);
    tbl' := DecryptBlock(e, n, dst, src, base + n, next, key, text);
    next := DecryptBlock(e, n, dst, src, base + 2 * n, tbl', key, text);
    tbl' := DecryptBlock(e, n, dst, src, base + 3 * n, next, key, text);
    next := DecryptBlock(e, n, dst, src, base + 4 * n, tbl', key, text);
    tbl' := DecryptBlock(e, n, dst, src, base + 5 * n, next, key, text);
    next := DecryptBlock(e, n, dst, src, base + 6 * n, tbl', key, text);
    tbl' := DecryptBlock(e, n, dst, src, base + 7 * n, next, key, text);
  }

  /** decrypt8 and decrypt16.  `dst` may be `src`: a block's ciphertext is used
      before the block is overwritten. */
  method Decrypt(e: Bytes -> Bytes, n: nat, dst: array<bv8>, src: array<bv8>, iv: Bytes)
    requires (n == 8 || n == 16) && IsCipher(e, n) && |iv| == n && src.Length == dst.Length
    modifies dst
    ensures dst[..] == Decrypted(e, n, e(iv), old(src[..]))
  {
    hide DecryptedTo, Decrypted, IsCipher;
    ghost var text := src[..];
    var tbl := e(iv);
    DecryptedStart(e, n, iv, text, dst[..]);
    Counts(src.Length, n);
    var blocks := src.Length / n;
    var groups, left := blocks / 8, blocks % 8;
    var base, g := 0, 0;
    while g < groups
      invariant 0 <= g <= groups && base == (if n == 8 then 64 * g else 128 * g)
      invariant DecryptedTo(e, n, e(iv), text, base, tbl, dst[..], src[..])
    {
      tbl := DecryptEight(e, n, dst, src, base, tbl, e(iv), text);
      base := base + 8 * n;
      g := g + 1;
    }
    base, tbl := DecryptLeft(e, n, dst, src, base, left, tbl, e(iv), text);
    DecryptTail(e, n, dst, src, base, tbl, e(iv), text);
  }

  lemma DecryptedStart(e: Bytes -> Bytes, n: nat, iv: Bytes, text: Bytes, dst: Bytes)
    requires IsCipher(e, n) && |iv| == n && |dst| == |text|
    ensures DecryptedTo(e, n, e(iv), text, 0, e(iv), dst, text)
  {
    assert text[0..] == text && dst[..0] == [];
  }

  /** The switch with fallthrough: one block for every case passed. */
  method DecryptLeft(e: Bytes -> Bytes, n: nat, dst: array<bv8>, src: array<bv8>, base: nat, left: nat, tbl: Bytes, ghost key: Bytes, ghost text: Bytes)
      returns (base': nat, tbl': Bytes)
    requires (n == 8 || n == 16) && left < 8 && base + n * left <= |text|
    requires DecryptedTo(e, n, key, text, base, tbl, dst[..], src[..])
    modifies dst
    ensures base' == base + n * left && DecryptedTo(e, n, key, text, base', tbl', dst[..], src[..])
  {
    hide DecryptedTo;
    base', tbl' := base, tbl;
    if left >= 7 {
      tbl' := DecryptBlock(e, n, dst, src, base', tbl', key, text);
      base' := base' + n;
    }
    if left >= 6 {
      tbl' := DecryptBlock(e, n, dst, src, base', tbl', key, text);
      base' := base' + n;
    }
    if left >= 5 {
      tbl' := DecryptBlock(e, n, dst, src, base', tbl', key, text);
      base' := base' + n;
    }
    if left >= 4 {
      tbl' := DecryptBlock(e, n, dst, src, base', tbl', key, text);
      base' := base' + n;
    }
    if left >= 3 {
      tbl' := DecryptBlock(e, n, dst, src, base', tbl', key, text);
      base' := base' + n;
    }
    if left >= 2 {
      tbl' := DecryptBlock(e, n, dst, src, base', tbl', key, text);
      base' := base' + n;
    }
    if left >= 1 {
      tbl' := DecryptBlock(e, n, dst, src, base', tbl', key, text);
      base' := base' + n;
    }
  }
}
