/** The password digests of `bcryptjs`: `hash(password, cost)` draws a salt, appends
    one NUL byte to the password's UTF-8 encoding, and builds the Blowfish key
    schedule from the first 72 bytes of that sequence repeated cyclically;
    `compare(password, hash)` derives the key again with the digest's own cost and
    salt. The Blowfish rounds are modelled as keeping those 72 bytes, so that two
    passwords compare equal exactly when the bytes bcrypt reads agree. */
module Bcrypt {
  import opened Wrappers
  import opened UriComponent

  /** The cost factor both the register action and the register route pass. */
  const Rounds := 10

  /** bcrypt reads at most this many bytes of a password. */
  const MaxKeyBytes := 72

  /** The UTF-8 encoding of a string. */
  function Utf8Bytes(s: string): (r: seq<Byte>)
    ensures |r| >= |s|
  {
    if s == [] then [] else Utf8(s[0]) + Utf8Bytes(s[1..])
  }

  /** The first `n` bytes of `s` repeated without end. */
  function Cycled(s: seq<Byte>, n: nat): (r: seq<Byte>)
    requires s != []
    ensures |r| == n
    decreases n
  {
    if n <= |s| then s[..n] else s + Cycled(s, n - |s|)
  }

  /** The bytes bcrypt reads of a password: its UTF-8 encoding with a NUL byte
      appended, repeated cyclically, up to 72 bytes. */
  function Key(password: string): (k: seq<Byte>)
    ensures |k| == MaxKeyBytes
  {
    Cycled(Utf8Bytes(password) + [0], MaxKeyBytes)
  }

  /** A stored hash: the cost and salt it was made with and the key it commits to. */
  datatype Digest = Digest(cost: nat, salt: nat, key: seq<Byte>)

  /** `bcrypt.compare(password, digest)`. */
  predicate Compare(password: string, d: Digest) {
    Key(password) == d.key
  }

  /** `bcrypt.hash(password, cost)` with the salt it draws. */
  function Hash(password: string, cost: nat, salt: nat): (d: Digest)
    ensures d.cost == cost && d.salt == salt
    ensures Compare(password, d)
  {
    Digest(cost, salt, Key(password))
  }

  lemma {:induction false} PercentAllAppend(a: seq<Byte>, b: seq<Byte>)
    ensures PercentAll(a + b) == PercentAll(a) + PercentAll(b)
  {
    if a != [] {
      PercentAllAppend(a[1..], b);
      assert (a + b)[1..] == a[1..] + b;
    } else {
      assert a + b == b;
    }
  }

  /** Reading back the escapes of a string's UTF-8 octets gives the string. */
  lemma {:induction false} Utf8Decodes(s: string)
    ensures Decode(PercentAll(Utf8Bytes(s))) == Some(s)
  {
    if s != [] {
      var c := s[0];
      var tail := PercentAll(Utf8Bytes(s[1..]));
      Utf8Decodes(s[1..]);
      PercentAllAppend(Utf8(c), Utf8Bytes(s[1..]));
      DecodeOctetsRead(c, tail);
      var e := PercentAll(Utf8(c)) + tail;
      assert e[0] == '%' by {
        PercentAllSplit(Utf8(c), tail);
      }
      assert [c] + s[1..] == s;
    }
  }

  /** Different strings have different UTF-8 encodings. */
  lemma Utf8Injective(p: string, q: string)
    requires Utf8Bytes(p) == Utf8Bytes(q)
    ensures p == q
  {
    Utf8Decodes(p);
    Utf8Decodes(q);
  }

  /** A character other than U+0000 encodes to bytes none of which is zero. */
  predicate NulFree(p: string) {
    forall i :: 0 <= i < |p| ==> p[i] != '\0'
  }

  lemma {:induction false} NulFreeBytes(p: string)
    requires NulFree(p)
    ensures forall j :: 0 <= j < |Utf8Bytes(p)| ==> Utf8Bytes(p)[j] != 0
  {
    if p != [] {
      assert NulFree(p[1..]) by {
        forall i | 0 <= i < |p[1..]| ensures p[1..][i] != '\0' {
          assert p[1..][i] == p[i + 1];
        }
      }
      NulFreeBytes(p[1..]);
    }
  }

  lemma {:induction false} Utf8BytesAppend(x: string, y: string)
    ensures Utf8Bytes(x + y) == Utf8Bytes(x) + Utf8Bytes(y)
  {
    if x == [] {
      assert x + y == y;
    } else {
      assert (x + y)[1..] == x[1..] + y;
      Utf8BytesAppend(x[1..], y);
    }
  }

  /** The key starts with the password's bytes and the NUL when they fit, and is
      their first 72 bytes when they do not. */
  lemma KeyPrefix(p: string)
    ensures |Utf8Bytes(p)| < MaxKeyBytes ==>
      Key(p)[..|Utf8Bytes(p)| + 1] == Utf8Bytes(p) + [0]
    ensures |Utf8Bytes(p)| >= MaxKeyBytes ==> Key(p) == Utf8Bytes(p)[..MaxKeyBytes]
  {
    var s := Utf8Bytes(p) + [0];
    if |s| < MaxKeyBytes {
      assert Key(p) == s + Cycled(s, MaxKeyBytes - |s|);
      assert Key(p)[..|s|] == s;
    } else if |Utf8Bytes(p)| >= MaxKeyBytes {
      assert s[..MaxKeyBytes] == Utf8Bytes(p)[..MaxKeyBytes];
    }
  }

  /** Without U+0000, the first zero byte of the key marks where the password's bytes
      end, or there is none when they fill all 72. */
  lemma KeyEnd(p: string)
    requires NulFree(p) && |Utf8Bytes(p)| <= MaxKeyBytes
    ensures forall i :: 0 <= i < |Utf8Bytes(p)| ==> Key(p)[i] != 0
    ensures |Utf8Bytes(p)| < MaxKeyBytes ==> Key(p)[|Utf8Bytes(p)|] == 0
  {
    KeyPrefix(p);
    NulFreeBytes(p);
    var a := Utf8Bytes(p);
    if |a| < MaxKeyBytes {
      forall i | 0 <= i < |a| ensures Key(p)[i] != 0 {
        assert Key(p)[i] == (a + [0])[i];
      }
      assert Key(p)[|a|] == (a + [0])[|a|];
    } else {
      assert a[..MaxKeyBytes] == a;
    }
  }

  /** Repeating a block twice over repeats it. */
  lemma {:induction false} CycledTwice(s: seq<Byte>, n: nat)
    requires s != []
    ensures Cycled(s + s, n) == Cycled(s, n)
    decreases n
  {
    if n <= |s| {
      assert (s + s)[..n] == s[..n];
    } else if n <= 2 * |s| {
      assert Cycled(s, n - |s|) == s[..n - |s|];
      assert (s + s)[..n] == s + s[..n - |s|];
    } else {
      CycledTwice(s, n - 2 * |s|);
      assert Cycled(s, n - |s|) == s + Cycled(s, n - 2 * |s|);
      assert Cycled(s + s, n) == (s + s) + Cycled(s + s, n - 2 * |s|);
    }
  }

  /** Up to 72 bytes and without U+0000, a digest accepts exactly the password it
      was made from. */
  lemma ShortPasswordsExact(p: string, q: string, cost: nat, salt: nat)
    requires |Utf8Bytes(p)| <= MaxKeyBytes && |Utf8Bytes(q)| <= MaxKeyBytes
    requires NulFree(p) && NulFree(q)
    ensures Compare(q, Hash(p, cost, salt)) <==> p == q
  {
    if Compare(q, Hash(p, cost, salt)) {
      var a, b := Utf8Bytes(p), Utf8Bytes(q);
      KeyPrefix(p);
      KeyPrefix(q);
      KeyEnd(p);
      KeyEnd(q);
      assert |a| == |b|;
      if |a| < MaxKeyBytes {
        assert a == (a + [0])[..|a|] && b == (b + [0])[..|b|];
      } else {
        assert a == a[..MaxKeyBytes] && b == b[..MaxKeyBytes];
      }
      Utf8Injective(p, q);
    }
  }

  /** The appended NUL and the cyclic reading let a password followed by U+0000 and
      itself again pass for the password alone: `abcdef` and `abcdef\u0000abcdef`
      share their key. */
  lemma NulRepeatCollides(p: string, cost: nat, salt: nat)
    ensures p + "\0" + p != p
    ensures Compare(p + "\0" + p, Hash(p, cost, salt))
  {
    var s := Utf8Bytes(p) + [0];
    Utf8BytesAppend(p + "\0", p);
    Utf8BytesAppend(p, "\0");
    assert Utf8Bytes("\0") == [0];
    assert Utf8Bytes(p + "\0" + p) + [0] == s + s;
    CycledTwice(s, MaxKeyBytes);
  }

  /** Past 72 bytes only the first 72 count: any password with the same first 72 bytes
      is accepted. */
  lemma LongPasswordsTruncated(p: string, q: string, cost: nat, salt: nat)
    requires |Utf8Bytes(p)| >= MaxKeyBytes && |Utf8Bytes(q)| >= MaxKeyBytes
    requires Utf8Bytes(p)[..MaxKeyBytes] == Utf8Bytes(q)[..MaxKeyBytes]
    ensures Compare(q, Hash(p, cost, salt))
  {
    KeyPrefix(p);
    KeyPrefix(q);
  }
}
