/** Types shared by every part of the BridgeOS model. */
module Common {

  /** An unsigned octet. */
  type byte = x: int | 0 <= x < 256

  type Bytes = seq<byte>

  /** The output of Blake3 or SHA-256; the hash functions themselves are parameters. */
  type Digest = seq<byte>

  /** Node ids, public keys and nonces are arrays of 32 bytes. */
  type Bytes32 = b: Bytes | |b| == 32
    witness [0, 0, 0, 0, 0, 0, 0, 0, 0, 0, 0, 0, 0, 0, 0, 0,
             0, 0, 0, 0, 0, 0, 0, 0, 0, 0, 0, 0, 0, 0, 0, 0]

  datatype Option<+T> = None | Some(value: T)

  datatype Result<+T, +E> = Ok(value: T) | Err(error: E)

  /** The number of values of the source's `u32`. */
  const U32_COUNT: nat := 0x1_0000_0000

  type u32 = x: int | 0 <= x < U32_COUNT

  function Min(a: nat, b: nat): nat {
    if a <= b then a else b
  }

  /** The number a byte string denotes, most significant byte first. */
  function BigEndianValue(bytes: Bytes): nat {
    if bytes == [] then 0 else BigEndianValue(bytes[..|bytes| - 1]) * 256 + bytes[|bytes| - 1]
  }

  /** No element occurs twice. */
  predicate NoDuplicates<T(==)>(s: seq<T>) {
    forall i, j :: 0 <= i < j < |s| ==> s[i] != s[j]
  }

  /** The naturals below `n`. */
  function Below(n: nat): (s: set<nat>)
    ensures forall i: nat :: i in s <==> i < n
  {
    if n == 0 then {} else Below(n - 1) + {n - 1}
  }

  lemma {:induction false} BelowSize(n: nat)
    ensures |Below(n)| == n
  {
    if n == 0 {
    } else {
      BelowSize(n - 1);
    }
  }

  /** The pigeonhole step: a subset of `Below(n)` with `n` members is all of it. */
  lemma FullSubsetIsBelow(s: set<nat>, n: nat)
    requires s <= Below(n)
    ensures |s| <= n
    ensures |s| == n <==> s == Below(n)
  {
    BelowSize(n);
    SubsetSize(s, Below(n));
    if |s| == n && s != Below(n) {
      var x :| x in Below(n) && x !in s;
      SubsetSize(s + {x}, Below(n));
      assert false;
    }
  }

  lemma {:induction false} SubsetSize<T>(a: set<T>, b: set<T>)
    requires a <= b
    ensures |a| <= |b|
    decreases a
  {
    if a == {} {
    } else {
      var x :| x in a;
      SubsetSize(a - {x}, b - {x});
    }
  }
}
