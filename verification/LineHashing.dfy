/** The line hash of the diff: eight bytes at a time, in 64-bit wrap-around
    arithmetic, with the line's length kept in the low bits. */
module LineHashing {

  type Byte = b: int | 0 <= b < 256

  const WORD_MOD := 0x1_0000_0000_0000_0000
  const LENGTH_RANGE := 32768
  /** The longest line that can be diffed, in bytes. */
  const LENGTH_MASK := LENGTH_RANGE - 1
  const HASH_MUL := 9000000000000000041
  const HASH_MOD := 281474976710597

  /** Bitwise exclusive or. */
  function Xor(a: nat, b: nat): nat {
    if a == 0 then b
    else if b == 0 then a
    else (a % 2 + b % 2) % 2 + 2 * Xor(a / 2, b / 2)
  }

  /** The bytes read little-endian, the first one lowest. */
  function LittleEndian(b: seq<Byte>): nat {
    if b == [] then 0 else b[0] + 256 * LittleEndian(b[1..])
  }

  /** The running hash after the eight-byte words of b. */
  function WordsHash(b: seq<Byte>, h: nat): nat
    decreases |b|
  {
    if |b| < 8 then h
    else WordsHash(b[8..], (Xor(h, LittleEndian(b[..8])) * HASH_MUL) % WORD_MOD)
  }

  /** The hash of one line: (hash << 15) | length. */
  function HashLine(b: seq<Byte>): nat {
    var full := |b| - |b| % 8;
    Xor(WordsHash(b[..full], 0), LittleEndian(b[full..])) % HASH_MOD * LENGTH_RANGE + |b|
  }

  /** A line's length can be read back from the low bits of its hash, so lines of
      different lengths never share one, and the whole fits in a 64-bit word. */
  lemma {:induction false} HashKeepsLength(b: seq<Byte>)
    requires |b| <= LENGTH_MASK
    ensures HashLine(b) % LENGTH_RANGE == |b|
    ensures HashLine(b) < WORD_MOD
  {
    var full := |b| - |b| % 8;
    PackKeepsLow(Xor(WordsHash(b[..full], 0), LittleEndian(b[full..])) % HASH_MOD, |b|);
  }

  lemma {:induction false} PackKeepsLow(h: nat, n: nat)
    requires h < HASH_MOD && n <= LENGTH_MASK
    ensures (h * LENGTH_RANGE + n) % LENGTH_RANGE == n
    ensures h * LENGTH_RANGE + n < WORD_MOD
  {
  }
}
