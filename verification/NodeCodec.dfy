/**
 The compact node lists of the distributed hash table: each node is its identifier, its address and
 its port in network order (BEP 5, Contact Encoding; BEP 32 for IPv6).
 */
module NodeCodec {
  import opened Strings
  import opened Wrappers
  import opened Int160

  datatype Node = Node(id: Id, ip: seq<Byte>, port: int)

  /** The element size of IPv4 lists. That of IPv6 lists is 38, and all sizes are allowed below. */
  const IPV4_SIZE: nat := 26

  /** The conversion to an unsigned 16-bit number, which truncates. */
  function U16(n: int): (u: int)
    ensures 0 <= u < 65536 && (u == n <==> 0 <= n < 65536)
  {
    n % 65536
  }

  /** The port in network order. */
  function PortBytes(port: int): (b: seq<Byte>)
    ensures |b| == 2
  {
    [U16(port) / 256, U16(port) % 256]
  }

  function EncodeNode(n: Node): seq<Byte> { n.id + n.ip + PortBytes(n.port) }

  function DecodeNode(b: seq<Byte>): (n: Node)
    requires |b| >= SIZE + 2
    ensures |n.ip| == |b| - SIZE - 2 && 0 <= n.port < 65536
  {
    var hi: int, lo: int := b[|b| - 2], b[|b| - 1];
    Node(b[..SIZE], b[SIZE..][..|b| - SIZE - 2], hi * 256 + lo)
  }

  /** The layout of an element: the identifier, the address, and the port with its high byte first. */
  lemma ElementIs(n: Node)
    requires 0 <= n.port < 65536
    ensures var b, k := EncodeNode(n), SIZE + |n.ip|;
            && |b| == k + 2 && b[..SIZE] == n.id && b[SIZE..k] == n.ip
            && b[k] as int * 256 + b[k + 1] as int == n.port
  {
  }

  /** The bytes of a list; None when an element has the wrong size, where the source panics. */
  function Encode(ns: seq<Node>, size: nat): Option<seq<Byte>> {
    if ns == [] then Some([])
    else
      var rest := Encode(ns[1..], size);
      if |EncodeNode(ns[0])| != size || rest.None? then None else Some(EncodeNode(ns[0]) + rest.value)
  }

  /** The nodes of all the whole elements, and how many bytes are left over. */
  function Decode(b: seq<Byte>, size: nat): (r: (seq<Node>, nat))
    requires size >= SIZE + 2
    decreases |b|
  {
    if |b| < size then ([], |b|)
    else
      var (rest, trailing) := Decode(b[size..], size);
      ([DecodeNode(b[..size])] + rest, trailing)
  }

  /** What decoding can give: an address of the element's size and a 16-bit port. */
  predicate Compact(n: Node, size: nat) { |n.ip| + SIZE + 2 == size && 0 <= n.port < 65536 }

  /** The nodes with the ports that the bytes hold. */
  function Truncated(ns: seq<Node>): (r: seq<Node>)
    ensures |r| == |ns| && forall i :: 0 <= i < |ns| ==> r[i] == ns[i].(port := U16(ns[i].port))
  {
    if ns == [] then [] else [ns[0].(port := U16(ns[0].port))] + Truncated(ns[1..])
  }

  lemma {:induction false} TruncatedSame(ns: seq<Node>)
    ensures Truncated(ns) == ns <==> forall i :: 0 <= i < |ns| ==> 0 <= ns[i].port < 65536
  {
    if ns != [] {
      TruncatedSame(ns[1..]);
      assert ns == [ns[0]] + ns[1..];
      assert Truncated(ns) == ns <==> U16(ns[0].port) == ns[0].port && Truncated(ns[1..]) == ns[1..];
    }
  }

  lemma NodeRoundTrip(n: Node)
    ensures DecodeNode(EncodeNode(n)) == n.(port := U16(n.port))
  {
    var b := EncodeNode(n);
    assert b[..SIZE] == n.id && b[SIZE..][..|n.ip|] == n.ip;
    assert b[|b| - 2] == U16(n.port) / 256 && b[|b| - 1] == U16(n.port) % 256;
  }

  lemma BytesRoundTrip(b: seq<Byte>)
    requires |b| >= SIZE + 2
    ensures EncodeNode(DecodeNode(b)) == b
  {
    var n := DecodeNode(b);
    var hi: int, lo: int := b[|b| - 2], b[|b| - 1];
    assert U16(n.port) == n.port && n.port / 256 == hi && n.port % 256 == lo;
    assert b == b[..SIZE] + b[SIZE..][..|b| - SIZE - 2] + [hi, lo];
  }

  lemma {:induction false} EncodedLength(ns: seq<Node>, size: nat)
    ensures Encode(ns, size).Some? <==> forall i :: 0 <= i < |ns| ==> |ns[i].ip| + SIZE + 2 == size
    ensures Encode(ns, size).Some? ==> |Encode(ns, size).value| == |ns| * size
  {
    if ns != [] {
      EncodedLength(ns[1..], size);
      assert forall i :: 1 <= i < |ns| ==> ns[i] == ns[1..][i - 1];
    }
  }

  lemma {:induction false} EncodedDecodes(ns: seq<Node>, size: nat)
    requires size >= SIZE + 2 && Encode(ns, size).Some?
    ensures Decode(Encode(ns, size).value, size) == (Truncated(ns), 0)
  {
    if ns != [] {
      var b := Encode(ns, size).value;
      EncodedDecodes(ns[1..], size);
      NodeRoundTrip(ns[0]);
      assert b[..size] == EncodeNode(ns[0]) && b[size..] == Encode(ns[1..], size).value;
    }
  }

  /** Encoding and decoding gives the nodes back exactly when each has an address of the right size
      and a port that fits. */
  lemma RoundTripExactly(ns: seq<Node>, size: nat)
    requires size >= SIZE + 2
    ensures (Encode(ns, size).Some? && Decode(Encode(ns, size).value, size) == (ns, 0)) <==>
              forall i :: 0 <= i < |ns| ==> Compact(ns[i], size)
  {
    EncodedLength(ns, size);
    if Encode(ns, size).Some? {
      EncodedDecodes(ns, size);
      TruncatedSame(ns);
    }
  }

  /** Decoding and encoding gives back the whole elements; what is left over is shorter than one. */
  lemma {:induction false} DecodedEncodes(b: seq<Byte>, size: nat)
    requires size >= SIZE + 2
    ensures var (ns, trailing) := Decode(b, size);
            && trailing < size && |b| == |ns| * size + trailing
            && (forall i :: 0 <= i < |ns| ==> Compact(ns[i], size))
            && Encode(ns, size) == Some(b[..|b| - trailing])
    decreases |b|
  {
    if |b| >= size {
      DecodedEncodes(b[size..], size);
      BytesRoundTrip(b[..size]);
      var (ns, trailing) := Decode(b, size);
      var rest := b[size..];
      assert ns[1..] == Decode(rest, size).0;
      assert b[..|b| - trailing] == b[..size] + rest[..|rest| - trailing];
    }
  }

  /** The whole buffer is used exactly when its length is a multiple of the element size. */
  lemma NothingLeftExactly(b: seq<Byte>, size: nat)
    requires size >= SIZE + 2
    ensures Decode(b, size).1 == 0 <==> exists n: nat :: n * size == |b|
  {
    DecodedEncodes(b, size);
    var (ns, trailing) := Decode(b, size);
    if n: nat :| n * size == |b| {
      MultiplesApart(n, |ns|, size, trailing);
    } else {
      assert trailing == 0 ==> |ns| * size == |b|;
    }
  }

  lemma MultiplesApart(n: nat, m: nat, size: nat, rest: nat)
    requires n * size == m * size + rest && rest < size
    ensures rest == 0
  {
    if n > m {
      NextMultiple(m, n, size);
    } else if n < m {
      NextMultiple(n, m, size);
    }
  }

  lemma {:induction false} NextMultiple(a: nat, b: nat, size: nat)
    requires a < b
    ensures a * size + size <= b * size
  {
    if a < b - 1 {
      NextMultiple(a, b - 1, size);
    }
    assert b * size == (b - 1) * size + size;
  }

  // ---------- as the program does it ----------

  /** Appends the nodes of the whole elements to the target; the result says whether bytes were
      left over. */
  method UnmarshalBinarySlice(target: seq<Node>, b: seq<Byte>, size: nat) returns (nodes: seq<Node>, trailing: nat)
    requires size >= SIZE + 2
    ensures nodes == target + Decode(b, size).0 && trailing == Decode(b, size).1
  {
    nodes, trailing := target, 0;
    var rest := b;
    while |rest| != 0
      invariant nodes + Decode(rest, size).0 == target + Decode(b, size).0 && Decode(rest, size).1 == Decode(b, size).1
      decreases |rest|
    {
      if |rest| < size {
        trailing := |rest|;
        break;
      }
      nodes := nodes + [DecodeNode(rest[..size])];
      rest := rest[size..];
    }
  }

  lemma {:induction false} EncodeAppend(ns: seq<Node>, x: Node, size: nat)
    ensures Encode(ns + [x], size) ==
      if Encode(ns, size).None? || |EncodeNode(x)| != size then None else Some(Encode(ns, size).value + EncodeNode(x))
  {
    if ns == [] {
      assert ns + [x] == [x] && [x][1..] == [] && Encode([x][1..], size) == Some([]);
      assert EncodeNode(x) + [] == EncodeNode(x) == [] + EncodeNode(x);
    } else {
      assert (ns + [x])[1..] == ns[1..] + [x];
      EncodeAppend(ns[1..], x, size);
      if Encode(ns[1..], size).Some? {
        Assoc(EncodeNode(ns[0]), Encode(ns[1..], size).value, EncodeNode(x));
      }
    }
  }

  method MarshalBinarySlice(ns: seq<Node>, size: nat) returns (b: Option<seq<Byte>>)
    ensures b == Encode(ns, size)
  {
    var bytes: seq<Byte> := [];
    for i := 0 to |ns|
      invariant Encode(ns[..i], size) == Some(bytes)
    {
      EncodeAppend(ns[..i], ns[i], size);
      assert ns[..i + 1] == ns[..i] + [ns[i]];
      var elem := EncodeNode(ns[i]);
      if |elem| != size {
        EncodedLength(ns, size);
        return None;
      }
      bytes := bytes + elem;
    }
    assert ns[..|ns|] == ns;
    b := Some(bytes);
  }

  /** The four bytes of an IPv4 address, also when it is mapped into IPv6; nothing for others. */
  function To4(ip: seq<Byte>): (r: seq<Byte>)
    ensures |r| == 4 || r == []
  {
    if |ip| == 4 then ip
    else if |ip| == 16 && (forall i :: 0 <= i < 10 ==> ip[i] == 0) && ip[10] == 255 && ip[11] == 255 then ip[12..]
    else []
  }

  function Mapped(ns: seq<Node>): (r: seq<Node>)
    ensures |r| == |ns| && forall i :: 0 <= i < |ns| ==> r[i] == ns[i].(ip := To4(ns[i].ip))
  {
    if ns == [] then [] else [ns[0].(ip := To4(ns[0].ip))] + Mapped(ns[1..])
  }

  /** Every address of an IPv4 list must have an IPv4 form; that form is what is read back. */
  method MarshalIPv4(ns: seq<Node>) returns (b: Option<seq<Byte>>)
    ensures b.Some? <==> forall i :: 0 <= i < |ns| ==> To4(ns[i].ip) != []
    ensures b.Some? ==> Decode(b.value, IPV4_SIZE) == (Truncated(Mapped(ns)), 0)
  {
    b := MarshalBinarySlice(Mapped(ns), IPV4_SIZE);
    EncodedLength(Mapped(ns), IPV4_SIZE);
    assert forall i :: 0 <= i < |ns| ==> (|Mapped(ns)[i].ip| == 4 <==> To4(ns[i].ip) != []);
    if b.Some? {
      EncodedDecodes(Mapped(ns), IPV4_SIZE);
    }
  }
}
