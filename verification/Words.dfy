// Sector buffers and the big-endian cursor codecs over them (util.c).

module Words {
  import opened Disks

  const TWO_32 := 0x1_0000_0000

  // cpu_to_be32 of a value cut to 32 bits, and back.
  function Enc(v: nat): (s: seq<Byte>)
    ensures |s| == 4
  {
    var q := v / 256;
    var r := q / 256;
    [r / 256 % 256, r % 256, q % 256, v % 256]
  }

  function Dec(s: seq<Byte>): (v: nat)
    requires |s| == 4
    ensures v < TWO_32
  {
    var a: int, b: int, c: int, d: int := s[0], s[1], s[2], s[3];
    a * 0x100_0000 + b * 0x1_0000 + c * 0x100 + d
  }

  // Only the low 32 bits survive; nothing is lost exactly when the value fits.
  lemma DecEnc(v: nat)
    ensures Dec(Enc(v)) == v % TWO_32
    ensures Dec(Enc(v)) == v <==> v < TWO_32
  {
    var q := v / 256;
    var r := q / 256;
    var t := r / 256;
    var u := t / 256;
    assert v == u * TWO_32 + Dec(Enc(v));
    DivUnique(v, u, Dec(Enc(v)));
  }

  // The most significant byte comes first.
  ghost predicate BigEndian(s: seq<Byte>, p: nat, v: nat) {
    && p + 4 <= |s| && s[p] == v / 0x100_0000 % 0x100 && s[p + 1] == v / 0x1_0000 % 0x100
    && s[p + 2] == v / 0x100 % 0x100 && s[p + 3] == v % 0x100
  }

  lemma EncBytes(v: nat)
    ensures BigEndian(Enc(v), 0, v)
  {
    var q := v / 256;
    DivTwice(v, 256, 256);
    DivTwice(v, 256 * 256, 256);
  }

  lemma DivTwice(v: nat, a: nat, b: nat)
    requires a > 0 && b > 0
    ensures a * b > 0 && v / a / b == v / (a * b)
  {
    var q, r := v / a, v % a;
    var q2, r2 := q / b, q % b;
    assert v == (q2 * b + r2) * a + r;
    assert r2 * a + r < a * b by { MulLe(r2 + 1, b, a); }
    assert v == q2 * (a * b) + (r2 * a + r);
    DivIs(v, a * b, q2, r2 * a + r);
  }

  lemma DivIs(v: nat, d: nat, q: nat, r: nat)
    requires d > 0 && v == q * d + r && r < d
    ensures v / d == q
  {
    var k := v / d;
    if k < q {
      MulLe(k + 1, q, d);
    } else if k > q {
      MulLe(q + 1, k, d);
    }
  }

  // What four bytes mean.
  lemma WordIs(s: seq<Byte>, p: nat)
    requires p + 4 <= |s|
    ensures Word(s, p) ==
      0x100_0000 * (s[p] as int) + 0x1_0000 * (s[p + 1] as int) + 0x100 * (s[p + 2] as int) + s[p + 3]
    ensures BigEndian(s, p, Word(s, p))
  {
    var x := s[p..p + 4];
    assert x == [s[p], s[p + 1], s[p + 2], s[p + 3]];
    EncDec(x);
    EncBytes(Dec(x));
  }

  // The magic number all blocks begin with, on the device.
  lemma MagicBytes(s: seq<Byte>)
    requires |s| >= 4
    ensures Word(s, 0) == 0xDEAD_BEEF <==> s[..4] == [0xDE, 0xAD, 0xBE, 0xEF]
  {
    var x := s[..4];
    assert s[0..4] == x;
    EncDec(x);
    assert Enc(0xDEAD_BEEF) == [0xDE, 0xAD, 0xBE, 0xEF];
    DecEnc(0xDEAD_BEEF);
  }

  lemma BigEndianOnce(s: seq<Byte>, p: nat, v: nat)
    requires BigEndian(s, p, v) && v < TWO_32
    ensures v == Word(s, p)
  {
    EncBytes(v);
    assert s[p..p + 4] == Enc(v);
    DecEnc(v);
  }

  lemma WordIff(s: seq<Byte>, p: nat, v: nat)
    requires p + 4 <= |s|
    ensures Word(s, p) == v <==> BigEndian(s, p, v) && v < TWO_32
  {
    WordIs(s, p);
    if BigEndian(s, p, v) && v < TWO_32 { BigEndianOnce(s, p, v); }
  }

  lemma DivUnique(v: nat, u: nat, w: nat)
    requires v == u * TWO_32 + w && w < TWO_32
    ensures v % TWO_32 == w && (u == 0 <==> v < TWO_32)
  {
  }

  lemma EncDec(s: seq<Byte>)
    requires |s| == 4
    ensures Enc(Dec(s)) == s
  {
    var a: int, b: int, c: int, d: int, v: int := s[0], s[1], s[2], s[3], Dec(s);
    var q: int := (a * 256 + b) * 256 + c;
    assert v == q * 256 + d;
    assert v / 256 == q && q / 256 == a * 256 + b;
  }

  lemma MulLe(a: nat, b: nat, c: nat)
    requires a <= b
    ensures a * c <= b * c
  {
  }

  // A string with x written over it from position p.
  function Splice<T>(s: seq<T>, p: nat, x: seq<T>): (t: seq<T>)
    requires p + |x| <= |s|
    ensures |t| == |s|
  {
    s[..p] + x + s[p + |x|..]
  }

  function Word(s: seq<Byte>, p: nat): nat
    requires p + 4 <= |s|
  {
    Dec(s[p..p + 4])
  }

  // A buffer_head: the bytes of one sector.
  class Buffer {
    const data: array<Byte>

    constructor Read(bytes: seq<Byte>)
      ensures fresh(data) && Bytes() == bytes
    {
      data := new Byte[|bytes|](i requires 0 <= i < |bytes| => bytes[i]);
    }

    function Bytes(): (s: seq<Byte>)
      reads data
      ensures |s| == data.Length
    {
      data[..]
    }

    // spfs_sb_remaining
    function Remaining(pos: nat): nat
      requires pos <= data.Length
    {
      data.Length - pos
    }

    // spfs_sb_read_u32
    method ReadU32(pos: nat) returns (ok: bool, next: nat, v: nat)
      requires pos <= data.Length
      ensures ok == (pos + 4 <= data.Length)
      ensures ok ==> next == pos + 4 && v == Word(Bytes(), pos)
      ensures ok ==> BigEndian(Bytes(), pos, v) && v < TWO_32
      ensures !ok ==> next == pos
    {
      if Remaining(pos) < 4 {
        return false, pos, 0;
      }
      v := Dec(data[pos..pos + 4]);
      assert data[pos..pos + 4] == Bytes()[pos..pos + 4];
      WordIs(Bytes(), pos);
      return true, pos + 4, v;
    }

    // spfs_sb_read_sector and spfs_sb_read_ino: four bytes, but only where eight remain.
    method ReadWide(pos: nat) returns (ok: bool, next: nat, v: nat)
      requires pos <= data.Length
      ensures ok == (pos + 8 <= data.Length)
      ensures ok ==> next == pos + 4 && v == Word(Bytes(), pos)
      ensures ok ==> BigEndian(Bytes(), pos, v) && v < TWO_32
      ensures !ok ==> next == pos
    {
      if Remaining(pos) < 8 {
        return false, pos, 0;
      }
      ok, next, v := ReadU32(pos);
    }

    // memcpy into the buffer.
    method CopyIn(pos: nat, src: seq<Byte>)
      requires pos + |src| <= data.Length
      modifies data
      ensures Bytes() == Splice(old(Bytes()), pos, src)
    {
      ghost var s := data[..];
      forall i | 0 <= i < |src| { data[pos + i] := src[i]; }
      assert data[..] == Splice(s, pos, src);
    }

    // spfs_sb_write_u32
    method WriteU32(pos: nat, v: nat) returns (ok: bool, next: nat)
      requires pos <= data.Length
      modifies data
      ensures ok == (pos + 4 <= data.Length)
      ensures ok ==> next == pos + 4 && Bytes() == Splice(old(Bytes()), pos, Enc(v))
      ensures ok ==> BigEndian(Bytes(), pos, v)
      ensures forall i :: 0 <= i < data.Length && !(ok && pos <= i < pos + 4) ==> Bytes()[i] == old(Bytes())[i]
      ensures !ok ==> next == pos && Bytes() == old(Bytes())
    {
      if Remaining(pos) < 4 {
        return false, pos;
      }
      EncBytes(v);
      CopyIn(pos, Enc(v));
      return true, pos + 4;
    }
  }
}
