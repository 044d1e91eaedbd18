/** The certificate stream that `tools/make_cert.py` and `tools/make_cacert.py` write. */
module Certs {
  import opened Bytes
  import opened Optional

  const NAME_SIZE: nat := 32

  /** `Cert(name, buff)`; its `len` is the length of `buff`. */
  datatype Cert = Cert(name: seq<byte>, buff: seq<byte>)

  /** The 16-bit little-endian length: higher bits are dropped. */
  function Pack16(n: nat): (s: seq<byte>)
    ensures |s| == 2
  {
    [n % 0x100, n / 0x100 % 0x100]
  }

  function NameField(name: seq<byte>): (s: seq<byte>)
    requires |name| <= NAME_SIZE
    ensures |s| == NAME_SIZE
  {
    name + Repeat(0, NAME_SIZE - |name|)
  }

  /** A record; a name that is too long raises an IndexError. */
  function Encode(c: Cert): (r: Option<seq<byte>>)
    ensures r.Some? <==> |c.name| <= NAME_SIZE
  {
    if |c.name| > NAME_SIZE then None
    else Some(NameField(c.name) + Pack16(|c.buff|) + c.buff)
  }

  /** The records up to the first one that raises, and whether none did. */
  function Stream(certs: seq<Cert>): (seq<byte>, bool) {
    if certs == [] then ([], true)
    else match Encode(certs[0])
      case None => ([], false)
      case Some(r) =>
        var (more, ok) := Stream(certs[1..]);
        (r + more, ok)
  }

  /** `Cert.__str__` */
  method Str(c: Cert) returns (r: Option<seq<byte>>)
    ensures r == Encode(c)
  {
    var outStr := new byte[NAME_SIZE](_ => 0);
    for i := 0 to |c.name|
      invariant i <= NAME_SIZE
      invariant forall k :: 0 <= k < i ==> outStr[k] == c.name[k]
      invariant forall k :: i <= k < NAME_SIZE ==> outStr[k] == 0
    {
      if i >= outStr.Length {
        return None;
      }
      outStr[i] := c.name[i];
    }
    var str := outStr[..];
    assert str == NameField(c.name);
    str := str + [|c.buff| % 0x100];
    str := str + [|c.buff| / 0x100 % 0x100];
    str := str + c.buff;
    assert str == NameField(c.name) + Pack16(|c.buff|) + c.buff;
    return Some(str);
  }

  /**
   * The bytes of a record: the name, NUL bytes up to 32, the length without its higher bits, the
   * body. There is no record for a name that is longer.
   */
  lemma {:induction false} RecordBytes(c: Cert)
    ensures Encode(c).None? <==> |c.name| > 32
    ensures Encode(c).Some? ==>
      var r := Encode(c).value;
      && |r| == 34 + |c.buff|
      && r[..|c.name|] == c.name
      && (forall i :: |c.name| <= i < 32 ==> r[i] == 0)
      && (r[32] as int) + 256 * (r[33] as int) == |c.buff| % 65536
      && r[34..] == c.buff
  {
    if |c.name| <= 32 {
      var r := Encode(c).value;
      assert r[..32] == NameField(c.name);
      assert r[32] == Pack16(|c.buff|)[0] && r[33] == Pack16(|c.buff|)[1];
      Sixteen(|c.buff|);
    }
  }

  lemma Sixteen(n: nat)
    ensures n % 0x100 + 256 * (n / 0x100 % 0x100) == n % 65536
  {
    var q := n / 0x100;
    var low, mid, high := n % 0x100, q % 0x100, q / 0x100;
    assert n == low + 256 * mid + 65536 * high;
  }

  /** The stream is the records one behind the other, up to the first one that raises. */
  lemma {:induction false} StreamConcatenates(xs: seq<Cert>, ys: seq<Cert>)
    ensures Stream(xs + ys) ==
      if Stream(xs).1 then (Stream(xs).0 + Stream(ys).0, Stream(ys).1) else Stream(xs)
  {
    if xs == [] {
      assert xs + ys == ys;
      assert [] + Stream(ys).0 == Stream(ys).0;
    } else {
      assert (xs + ys)[1..] == xs[1..] + ys;
      StreamConcatenates(xs[1..], ys);
      if Encode(xs[0]).Some? {
        var r, more := Encode(xs[0]).value, Stream(xs[1..]).0;
        assert Stream(xs).0 == r + more;
        assert r + (more + Stream(ys).0) == (r + more) + Stream(ys).0;
      }
    }
  }

  lemma {:induction false} StreamOfOne(c: Cert)
    ensures Stream([c]) == if |c.name| <= 32 then (Encode(c).value, true) else ([], false)
  {
    assert [c][1..] == [];
    assert Encode(c).Some? ==> Encode(c).value + [] == Encode(c).value;
  }

  lemma {:induction false} StreamAppend(certs: seq<Cert>, c: Cert)
    ensures var (b, ok) := Stream(certs);
      var (b', ok') := Stream(certs + [c]);
      if !ok then b' == b && !ok'
      else if Encode(c).None? then b' == b && !ok'
      else b' == b + Encode(c).value && ok'
  {
    StreamConcatenates(certs, [c]);
    StreamOfOne(c);
  }

  lemma {:induction false} StoppedStream(certs: seq<Cert>, n: nat)
    requires n <= |certs| && !Stream(certs[..n]).1
    ensures Stream(certs) == Stream(certs[..n])
    decreases |certs| - n
  {
    if n == |certs| {
      assert certs[..n] == certs;
    } else {
      StreamAppend(certs[..n], certs[n]);
      assert certs[..n + 1] == certs[..n] + [certs[n]];
      StoppedStream(certs, n + 1);
    }
  }

  /** The loop that writes the records to the output file. */
  method WriteCerts(certs: seq<Cert>) returns (file: seq<byte>, ok: bool)
    ensures (file, ok) == Stream(certs)
  {
    file := [];
    for i := 0 to |certs|
      invariant Stream(certs[..i]) == (file, true)
    {
      var r := Str(certs[i]);
      StreamAppend(certs[..i], certs[i]);
      assert certs[..i + 1] == certs[..i] + [certs[i]];
      if r.None? {
        StoppedStream(certs, i + 1);
        return file, false;
      }
      file := file + r.value;
    }
    assert certs[..|certs|] == certs;
    ok := true;
  }

  // ----- reading --------------------------------------------------------------------------

  /** A name field up to its first NUL. */
  function UpToNul(s: seq<byte>): seq<byte> {
    if s == [] || s[0] == 0 then [] else [s[0]] + UpToNul(s[1..])
  }

  function ReadCert(b: seq<byte>): (r: Option<(Cert, seq<byte>)>)
    ensures r.Some? ==> |r.value.1| < |b|
  {
    if |b| < NAME_SIZE + 2 then None else
      var size := (b[NAME_SIZE] as int) + 0x100 * (b[NAME_SIZE + 1] as int);
      var rest := b[NAME_SIZE + 2..];
      if size > |rest| then None else Some((Cert(UpToNul(b[..NAME_SIZE]), rest[..size]), rest[size..]))
  }

  function ReadCerts(b: seq<byte>): Option<seq<Cert>>
    decreases |b|
  {
    if b == [] then Some([]) else
      var (c, rest) :- ReadCert(b);
      var cs :- ReadCerts(rest);
      Some([c] + cs)
  }

  /** A record that its encoding describes completely. */
  predicate Storable(c: Cert) {
    0 !in c.name && |c.buff| < 0x1_0000
  }

  predicate AllNamesFit(certs: seq<Cert>) {
    forall c <- certs :: |c.name| <= NAME_SIZE
  }

  lemma {:induction false} StreamRuns(certs: seq<Cert>)
    ensures Stream(certs).1 <==> AllNamesFit(certs)
  {
    if certs != [] {
      StreamRuns(certs[1..]);
      assert certs == [certs[0]] + certs[1..];
    }
  }

  lemma {:induction false} UpToNulOfField(name: seq<byte>, n: nat)
    ensures UpToNul(name + Repeat(0, n)) == name <==> 0 !in name
  {
    var s := name + Repeat(0, n);
    if name == [] {
      assert UpToNul(s) == [];
    } else {
      assert s[1..] == name[1..] + Repeat(0, n);
      UpToNulOfField(name[1..], n);
      assert name == [name[0]] + name[1..];
      if name[0] != 0 {
        assert UpToNul(s)[1..] == UpToNul(s[1..]);
      }
    }
  }

  /** The first record read is the first one written exactly when that one is storable. */
  lemma {:induction false} ReadFirst(c: Cert, more: seq<byte>)
    requires |c.name| <= NAME_SIZE
    ensures var r := ReadCert(Encode(c).value + more);
      if Storable(c) then r == Some((c, more)) else r.None? || r.value.0 != c
  {
    hide Repeat, UpToNul;
    var size := |c.buff|;
    var b := Encode(c).value + more;
    assert b[..NAME_SIZE] == NameField(c.name);
    assert b[NAME_SIZE..NAME_SIZE + 2] == Pack16(size);
    assert b[NAME_SIZE] == Pack16(size)[0] && b[NAME_SIZE + 1] == Pack16(size)[1];
    assert b[NAME_SIZE + 2..] == c.buff + more;
    UpToNulOfField(c.name, NAME_SIZE - |c.name|);
    Length16(size);
    if size < 0x1_0000 {
      assert (c.buff + more)[..size] == c.buff;
      assert (c.buff + more)[size..] == more;
    }
  }

  lemma Length16(n: nat)
    ensures n % 0x100 + 0x100 * (n / 0x100 % 0x100) == n <==> n < 0x1_0000
    ensures n % 0x100 + 0x100 * (n / 0x100 % 0x100) < 0x1_0000
  {
  }

  /**
   * Reading a stream gives back the records it was made of: exactly when every name is free of NUL
   * bytes and every body is shorter than 65536 bytes.
   */
  lemma {:induction false} StreamRoundTrip(certs: seq<Cert>)
    requires AllNamesFit(certs)
    ensures ReadCerts(Stream(certs).0) == Some(certs) <==> forall c <- certs :: Storable(c)
    decreases |certs|
  {
    hide ReadCert, Storable;
    if certs != [] {
      var c, cs := certs[0], certs[1..];
      assert certs == [c] + cs;
      assert c in certs;
      var more := Stream(cs).0;
      ReadFirst(c, more);
      StreamRoundTrip(cs);
      var b := Stream(certs).0;
      assert b == Encode(c).value + more;
      if Storable(c) {
        assert ReadCerts(b).Some? <==> ReadCerts(more).Some?;
        if ReadCerts(more).Some? {
          assert ReadCerts(b).value == [c] + ReadCerts(more).value;
          assert ReadCerts(b).value[1..] == ReadCerts(more).value;
        }
      }
    }
  }

  /** Different lists of storable records give different streams. */
  lemma {:induction false} StreamInjective(xs: seq<Cert>, ys: seq<Cert>)
    requires AllNamesFit(xs) && AllNamesFit(ys)
    requires forall c <- xs + ys :: Storable(c)
    requires Stream(xs).0 == Stream(ys).0
    ensures xs == ys
  {
    assert forall c <- xs :: c in xs + ys;
    assert forall c <- ys :: c in xs + ys;
    StreamRoundTrip(xs);
    StreamRoundTrip(ys);
  }

  /** A body of 65536 bytes comes back empty: its length is stored as zero. */
  lemma {:induction false} LongBodyIsLost(name: seq<byte>)
    requires |name| <= NAME_SIZE
    ensures var c := Cert(name, Repeat(7, 0x1_0000));
      ReadCerts(Stream([c]).0) != Some([c])
  {
    var c := Cert(name, Repeat(7, 0x1_0000));
    StreamRoundTrip([c]);
    assert c in [c];
  }
}
