/**
 Kernel records (agent-ebpf/src/main.rs, agent/src/events.rs): the probes zero a
 reserved ring-buffer record and store its fields in place; userspace copies the
 bytes out by the same C layout. Integers are little-endian, as on the eBPF
 target the agent is built for.
 */
module KernelRecords {
  import opened Bytes
  import opened Options

  // ----- little-endian integers

  function LE(n: nat, w: nat): (b: Key)
    ensures |b| == w
  {
    if w == 0 then [] else [n % 256] + LE(n / 256, w - 1)
  }

  function Nat(b: Key): nat {
    if b == [] then 0 else b[0] + 256 * Nat(b[1..])
  }

  function Pow256(w: nat): nat {
    if w == 0 then 1 else 256 * Pow256(w - 1)
  }

  lemma {:induction false} NatOfLE(n: nat, w: nat)
    requires n < Pow256(w)
    ensures Nat(LE(n, w)) == n
  {
    if w > 0 {
      NatOfLE(n / 256, w - 1);
      assert LE(n, w)[1..] == LE(n / 256, w - 1);
    }
  }

  lemma {:induction false} LEOfNat(b: Key)
    ensures LE(Nat(b), |b|) == b
    ensures Nat(b) < Pow256(|b|)
  {
    if b != [] {
      LEOfNat(b[1..]);
      assert Nat(b) / 256 == Nat(b[1..]) && Nat(b) % 256 == b[0];
    }
  }

  function Reversed(b: Key): (r: Key)
    ensures |r| == |b| && forall i :: 0 <= i < |b| ==> r[i] == b[|b| - 1 - i]
  {
    if b == [] then [] else Reversed(b[1..]) + [b[0]]
  }

  /** from_be of a w-byte integer on a little-endian machine. */
  function FromBE(n: nat, w: nat): nat {
    Nat(Reversed(LE(n, w)))
  }

  /** The octets Ipv4Addr::from(u32) shows: most significant first. */
  function Octets(n: nat): Key {
    Reversed(LE(n, 4))
  }

  /** Bytes read as a native integer, taken as network order, are shown in the order they lie in memory. */
  lemma OctetsInMemoryOrder(b: Key)
    requires |b| == 4
    ensures Octets(FromBE(Nat(b), 4)) == b && Nat(b) < Pow256(4)
  {
    LEOfNat(b);
    LEOfNat(Reversed(b));
    assert Reversed(Reversed(b)) == b;
  }

  /** The number whose bytes, most significant first, are b. */
  function BigEndian(b: Key): nat {
    Nat(Reversed(b))
  }

  /** Two bytes of a port, in host order and in network order. */
  lemma PortOfPair(b: Key)
    requires |b| == 2
    ensures Nat(b) == b[0] as int + 256 * (b[1] as int)
    ensures FromBE(Nat(b), 2) == BigEndian(b) == 256 * (b[0] as int) + b[1] as int
  {
    LEOfNat(b);
    var r := Reversed(b);
    assert r == [b[1], b[0]];
    assert Nat(b) == b[0] + 256 * Nat(b[1..]) && Nat(b[1..]) == b[1] + 256 * Nat(b[1..][1..]);
    assert Nat(r) == r[0] + 256 * Nat(r[1..]) && Nat(r[1..]) == r[1] + 256 * Nat(r[1..][1..]);
  }

  // ----- storing fields in place

  function Splice(s: Key, off: nat, b: Key): (r: Key)
    requires off + |b| <= |s|
    ensures |r| == |s|
  {
    s[..off] + b + s[off + |b|..]
  }

  function Zeros(n: nat): Key {
    seq(n, _ => 0)
  }

  /** One field store. */
  datatype Put = Put(off: nat, bytes: Key)

  predicate Fits(size: nat, puts: seq<Put>) {
    forall i :: 0 <= i < |puts| ==> puts[i].off + |puts[i].bytes| <= size
  }

  /** A zeroed record after a sequence of field stores. */
  function Lay(size: nat, puts: seq<Put>): (r: Key)
    requires Fits(size, puts)
    ensures |r| == size
  {
    if puts == [] then Zeros(size)
    else
      var k := |puts| - 1;
      Splice(Lay(size, puts[..k]), puts[k].off, puts[k].bytes)
  }

  predicate Disjoint(p: Put, lo: nat, hi: nat) {
    hi <= p.off || p.off + |p.bytes| <= lo
  }

  /** A store that no later store overlaps is what a reader finds there. */
  lemma {:induction false} FieldSurvives(size: nat, puts: seq<Put>, k: nat)
    requires Fits(size, puts) && k < |puts|
    requires forall j :: k < j < |puts| ==> Disjoint(puts[j], puts[k].off, puts[k].off + |puts[k].bytes|)
    ensures var p := puts[k]; Lay(size, puts)[p.off..p.off + |p.bytes|] == p.bytes
  {
    var n, p := |puts| - 1, puts[k];
    if k < n {
      FieldSurvives(size, puts[..n], k);
      var before := Lay(size, puts[..n]);
      assert Disjoint(puts[n], p.off, p.off + |p.bytes|);
      assert Lay(size, puts)[p.off..p.off + |p.bytes|] == before[p.off..p.off + |p.bytes|];
    }
  }

  /** Bytes no store touches are zero: nothing stale is submitted. */
  lemma {:induction false} PaddingIsZero(size: nat, puts: seq<Put>, i: nat)
    requires Fits(size, puts) && i < size
    requires forall j :: 0 <= j < |puts| ==> Disjoint(puts[j], i, i + 1)
    ensures Lay(size, puts)[i] == 0
  {
    if puts != [] {
      PaddingIsZero(size, puts[..|puts| - 1], i);
      assert Disjoint(puts[|puts| - 1], i, i + 1);
    }
  }

  // ----- the three records

  const ET_EXEC: Byte := 0
  const ET_FILE: Byte := 1
  const ET_TCP: Byte := 2

  const U32 := 0x1_0000_0000

  type Word = n: int | 0 <= n < U32 * U32  // a helper's 64-bit result

  const EXEC_SIZE := 28
  const FILE_SIZE := 288
  const TCP_SIZE := 36

  function ExecPuts(pid: nat, uid: nat, comm: Key): seq<Put> {
    [Put(0, [ET_EXEC]), Put(4, LE(pid, 4)), Put(8, LE(uid, 4)), Put(12, comm)]
  }

  function FilePuts(pid: nat, uid: nat, ret: nat, comm: Key, path: Key): seq<Put> {
    [Put(0, [ET_FILE]), Put(4, LE(pid, 4)), Put(8, LE(uid, 4)), Put(284, LE(ret, 4)), Put(12, comm), Put(28, path)]
  }

  /** The stores try_tcp_connect makes for a socket. */
  function SocketPuts(pid: nat, sock: Key, comm: Key): seq<Put>
    requires |sock| >= 16
  {
    TcpPuts(pid, Nat(sock[4..8]), Nat(sock[..4]), Nat(sock[14..16]), FromBE(Nat(sock[12..14]), 2), comm)
  }

  function TcpPuts(pid: nat, srcIP: nat, dstIP: nat, srcPort: nat, dstPort: nat, comm: Key): seq<Put> {
    [Put(0, [ET_TCP]), Put(4, LE(pid, 4)), Put(24, LE(srcIP, 4)), Put(28, LE(dstIP, 4)),
     Put(32, LE(srcPort, 2)), Put(34, LE(dstPort, 2)), Put(8, comm)]
  }

  class RingEntry {
    const bytes: array<Byte>

    /** A reserved entry holds arbitrary bytes. */
    constructor (reserved: array<Byte>)
      ensures bytes == reserved
    {
      bytes := reserved;
    }

    ghost predicate Holds(puts: seq<Put>)
      reads bytes
    {
      Fits(bytes.Length, puts) && bytes[..] == Lay(bytes.Length, puts)
    }

    method Zero()
      modifies bytes
      ensures Holds([])
    {
      for i := 0 to bytes.Length
        invariant forall j :: 0 <= j < i ==> bytes[j] == 0
      {
        bytes[i] := 0;
      }
    }

    /** Store number k of the record that `puts` describes. */
    method Store(off: nat, b: Key, ghost puts: seq<Put>, ghost k: nat)
      requires off + |b| <= bytes.Length && k < |puts| && puts[k] == Put(off, b) && Holds(puts[..k])
      modifies bytes
      ensures Holds(puts[..k + 1])
    {
      for i := 0 to |b|
        invariant forall j :: 0 <= j < i ==> bytes[off + j] == b[j]
        invariant forall j :: 0 <= j < bytes.Length && !(off <= j < off + i) ==> bytes[j] == old(bytes[j])
      {
        bytes[off + i] := b[i];
      }
      assert bytes[..] == Splice(old(bytes[..]), off, b);
      assert puts[..k + 1][..k] == puts[..k];
    }

    /** try_exec: the process id is the upper half of one helper's result, the user id the lower half of another's. */
    method TryExec(pidTgid: Word, uidGid: Word, comm: Key)
      requires bytes.Length == EXEC_SIZE && |comm| == 16
      modifies bytes
      ensures Holds(ExecPuts(pidTgid / U32, uidGid % U32, comm))
      ensures Arrives(bytes[..], ExecEvent(pidTgid / U32, uidGid % U32, TrimNul(comm)), "exec")
    {
      var pid, uid := pidTgid / U32, uidGid % U32;
      WriteExec(pid, uid, comm);
      ExecRoundTrip(pid, uid, comm);
    }

    method WriteExec(pid: nat, uid: nat, comm: Key)
      requires bytes.Length == EXEC_SIZE && |comm| == 16
      modifies bytes
      ensures Holds(ExecPuts(pid, uid, comm))
    {
      ghost var puts := ExecPuts(pid, uid, comm);
      Zero();
      assert puts[..0] == [];
      Store(0, [ET_EXEC], puts, 0);
      Store(4, LE(pid, 4), puts, 1);
      Store(8, LE(uid, 4), puts, 2);
      Store(12, comm, puts, 3);
      assert puts[..4] == puts;
    }

    /** try_openat: `path` is what the probe read from user memory, possibly nothing. */
    method TryOpenat(pidTgid: Word, uidGid: Word, comm: Key, path: Key)
      requires bytes.Length == FILE_SIZE && |comm| == 16 && |path| <= 256
      modifies bytes
      ensures Holds(FilePuts(pidTgid / U32, uidGid % U32, 0, comm, path))
      ensures Arrives(bytes[..], FileEvent(pidTgid / U32, TrimNul(comm), TrimNul(path), 0), "file")
    {
      var pid, uid := pidTgid / U32, uidGid % U32;
      WriteFile(pid, uid, comm, path);
      FileRoundTrip(pid, uid, 0, comm, path);
    }

    method WriteFile(pid: nat, uid: nat, comm: Key, path: Key)
      requires bytes.Length == FILE_SIZE && |comm| == 16 && |path| <= 256
      modifies bytes
      ensures Holds(FilePuts(pid, uid, 0, comm, path))
    {
      ghost var puts := FilePuts(pid, uid, 0, comm, path);
      Zero();
      assert puts[..0] == [];
      Store(0, [ET_FILE], puts, 0);
      Store(4, LE(pid, 4), puts, 1);
      Store(8, LE(uid, 4), puts, 2);
      Store(284, LE(0, 4), puts, 3);
      Store(12, comm, puts, 4);
      Store(28, path, puts, 5);
      assert puts[..6] == puts;
    }

    /** try_tcp_connect: addresses and ports are read out of the kernel's socket. */
    method TryTcpConnect(pidTgid: Word, sock: Key, comm: Key)
      requires bytes.Length == TCP_SIZE && |comm| == 16 && |sock| >= 16
      modifies bytes
      ensures Arrives(bytes[..], SocketEvent(pidTgid / U32, sock, comm), "tcp")
      ensures Holds(SocketPuts(pidTgid / U32, sock, comm))
    {
      var srcIP, dstIP := Nat(sock[4..8]), Nat(sock[..4]);
      var srcPort, dstPort := Nat(sock[14..16]), FromBE(Nat(sock[12..14]), 2);
      WriteTcp(pidTgid / U32, srcIP, dstIP, srcPort, dstPort, comm);
      TcpRoundTrip(pidTgid / U32, sock, comm, SocketPuts(pidTgid / U32, sock, comm));
    }

    method WriteTcp(pid: nat, srcIP: nat, dstIP: nat, srcPort: nat, dstPort: nat, comm: Key)
      requires bytes.Length == TCP_SIZE && |comm| == 16
      modifies bytes
      ensures Holds(TcpPuts(pid, srcIP, dstIP, srcPort, dstPort, comm))
    {
      ghost var puts := TcpPuts(pid, srcIP, dstIP, srcPort, dstPort, comm);
      Zero();
      assert puts[..0] == [];
      Store(0, [ET_TCP], puts, 0);
      Store(4, LE(pid, 4), puts, 1);
      Store(24, LE(srcIP, 4), puts, 2);
      Store(28, LE(dstIP, 4), puts, 3);
      Store(32, LE(srcPort, 2), puts, 4);
      Store(34, LE(dstPort, 2), puts, 5);
      Store(8, comm, puts, 6);
      assert puts[..7] == puts;
    }
  }

  // ----- userspace

  /** An event as userspace understands it; `comm` and `path` are the bytes before trailing NULs. */
  datatype Decoded =
    | ExecEvent(pid: nat, uid: nat, comm: Key)
    | FileEvent(pid: nat, comm: Key, path: Key, ret: int)
    | TcpEvent(pid: nat, comm: Key, srcIP: Key, srcPort: nat, dstIP: Key, dstPort: nat)

  function TrimNul(b: Key): Key {
    if b != [] && b[|b| - 1] == NUL then TrimNul(b[..|b| - 1]) else b
  }

  /** The name ends where only NULs follow. */
  lemma {:induction false} TrimNulMeans(b: Key)
    ensures var r := TrimNul(b);
      r <= b && (forall i :: |r| <= i < |b| ==> b[i] == 0) && (r != [] ==> r[|r| - 1] != 0)
  {
    if b != [] && b[|b| - 1] == NUL {
      TrimNulMeans(b[..|b| - 1]);
    }
  }

  /** Two's complement. */
  function Signed(n: nat): int {
    if n < U32 / 2 then n else n - U32
  }

  lemma SignedMeans(n: nat)
    requires n < U32
    ensures -0x8000_0000 <= Signed(n) < 0x8000_0000 && (Signed(n) == n || Signed(n) + U32 == n)
  {
  }

  /** One ring-buffer record: the tag must come with its exact length. */
  function Decode(data: Key): Option<Decoded> {
    if data == [] then None
    else if data[0] == ET_EXEC && |data| == EXEC_SIZE then
      Some(ExecEvent(Nat(data[4..8]), Nat(data[8..12]), TrimNul(data[12..28])))
    else if data[0] == ET_FILE && |data| == FILE_SIZE then
      Some(FileEvent(Nat(data[4..8]), TrimNul(data[12..28]), TrimNul(data[28..284]), Signed(Nat(data[284..288]))))
    else if data[0] == ET_TCP && |data| == TCP_SIZE then
      Some(TcpEvent(Nat(data[4..8]), TrimNul(data[8..24]),
                    Octets(FromBE(Nat(data[24..28]), 4)), Nat(data[32..34]),
                    Octets(FromBE(Nat(data[28..32]), 4)), Nat(data[34..36])))
    else None
  }

  /** The protobuf enum numbers the kinds differently from the kernel tags. */
  function ProtoType(d: Decoded): nat {
    match d
    case ExecEvent(_, _, _) => 0
    case TcpEvent(_, _, _, _, _, _) => 1
    case FileEvent(_, _, _, _) => 2
  }

  /** The collector's name for an enum value. */
  function EventTypeName(proto: nat): Option<string> {
    if proto == 0 then Some("exec") else if proto == 1 then Some("tcp") else if proto == 2 then Some("file") else None
  }

  /** Userspace decodes the record to the event, and the collector files it under the name. */
  predicate Arrives(data: Key, d: Decoded, name: string) {
    Decode(data) == Some(d) && EventTypeName(ProtoType(d)) == Some(name)
  }

  /**
   What lies in a socket: both addresses in memory order, the remote port in
   network order, the local port in host order.
   */
  function SocketEvent(pid: nat, sock: Key, comm: Key): Decoded
    requires |sock| >= 16
  {
    TcpEvent(pid, TrimNul(comm), sock[4..8], Nat(sock[14..16]), sock[..4], BigEndian(sock[12..14]))
  }

  // ----- round trips

  lemma U32IsPow256()
    ensures Pow256(4) == U32 && Pow256(2) == 65536
  {
    assert Pow256(2) == 256 * Pow256(1) && Pow256(4) == 256 * Pow256(3) && Pow256(3) == 256 * Pow256(2);
  }

  /** What a reader of the record finds where store k put its bytes. */
  lemma ReadBack(size: nat, puts: seq<Put>, k: nat, lo: nat, hi: nat, data: Key)
    requires Fits(size, puts) && k < |puts| && data == Lay(size, puts)
    requires puts[k].off == lo && lo + |puts[k].bytes| == hi
    requires forall j :: k < j < |puts| ==> Disjoint(puts[j], lo, hi)
    ensures |data| == size && hi <= size && data[lo..hi] == puts[k].bytes
  {
    FieldSurvives(size, puts, k);
  }

  /** Every exec record decodes to the fields the probe stored. */
  lemma ExecRoundTrip(pid: nat, uid: nat, comm: Key)
    requires pid < U32 && uid < U32 && |comm| == 16
    ensures Fits(EXEC_SIZE, ExecPuts(pid, uid, comm))
    ensures Decode(Lay(EXEC_SIZE, ExecPuts(pid, uid, comm))) == Some(ExecEvent(pid, uid, TrimNul(comm)))
  {
    var puts := ExecPuts(pid, uid, comm);
    var data := Lay(EXEC_SIZE, puts);
    ReadBack(EXEC_SIZE, puts, 0, 0, 1, data);
    ReadBack(EXEC_SIZE, puts, 1, 4, 8, data);
    ReadBack(EXEC_SIZE, puts, 2, 8, 12, data);
    ReadBack(EXEC_SIZE, puts, 3, 12, 28, data);
    assert data[0] == data[0..1][0];
    U32IsPow256();
    NatOfLE(pid, 4);
    NatOfLE(uid, 4);
  }

  /** Every file record decodes to the fields the probe stored; what the probe did not fill of the path is NUL. */
  lemma FileRoundTrip(pid: nat, uid: nat, ret: nat, comm: Key, path: Key)
    requires pid < U32 && uid < U32 && ret < U32 && |comm| == 16 && |path| <= 256
    ensures Fits(FILE_SIZE, FilePuts(pid, uid, ret, comm, path))
    ensures Decode(Lay(FILE_SIZE, FilePuts(pid, uid, ret, comm, path)))
         == Some(FileEvent(pid, TrimNul(comm), TrimNul(path), Signed(ret)))
    ensures Nat(Lay(FILE_SIZE, FilePuts(pid, uid, ret, comm, path))[8..12]) == uid
  {
    var puts := FilePuts(pid, uid, ret, comm, path);
    var data := Lay(FILE_SIZE, puts);
    ReadBack(FILE_SIZE, puts, 0, 0, 1, data);
    ReadBack(FILE_SIZE, puts, 1, 4, 8, data);
    ReadBack(FILE_SIZE, puts, 2, 8, 12, data);
    ReadBack(FILE_SIZE, puts, 3, 284, 288, data);
    ReadBack(FILE_SIZE, puts, 4, 12, 28, data);
    ReadBack(FILE_SIZE, puts, 5, 28, 28 + |path|, data);
    assert data[0] == data[0..1][0];
    U32IsPow256();
    NatOfLE(pid, 4);
    NatOfLE(uid, 4);
    NatOfLE(ret, 4);
    forall i: nat | |path| <= i < 256
      ensures data[28..284][i] == NUL
    {
      PaddingIsZero(FILE_SIZE, puts, 28 + i);
    }
    assert data[28..284][..|path|] == data[28..28 + |path|];
    TrimNulPadded(data[28..284], |path|);
  }

  lemma {:induction false} TrimNulPadded(b: Key, n: nat)
    requires n <= |b| && forall i :: n <= i < |b| ==> b[i] == NUL
    ensures TrimNul(b) == TrimNul(b[..n])
  {
    if n < |b| {
      var k := |b| - 1;
      TrimNulPadded(b[..k], n);
      assert b[..k][..n] == b[..n];
    } else {
      assert b[..n] == b;
    }
  }

  /** A NUL-free name of up to the field's length survives padding and trimming. */
  lemma NamesSurvive(name: Key, size: nat)
    requires NulFree(name) && |name| <= size
    ensures TrimNul(name + Zeros(size - |name|)) == name
  {
    var b := name + Zeros(size - |name|);
    assert b[..|name|] == name;
    TrimNulPadded(b, |name|);
  }

  lemma TcpFields(pid: nat, srcIP: nat, dstIP: nat, srcPort: nat, dstPort: nat, comm: Key, src: Key, dst: Key)
    requires pid < U32 && srcIP < Pow256(4) && dstIP < Pow256(4) && srcPort < 65536 && dstPort < 65536 && |comm| == 16
    requires src == Octets(FromBE(srcIP, 4)) && dst == Octets(FromBE(dstIP, 4))
    ensures Fits(TCP_SIZE, TcpPuts(pid, srcIP, dstIP, srcPort, dstPort, comm))
    ensures Decode(Lay(TCP_SIZE, TcpPuts(pid, srcIP, dstIP, srcPort, dstPort, comm)))
         == Some(TcpEvent(pid, TrimNul(comm), src, srcPort, dst, dstPort))
  {
    var puts := TcpPuts(pid, srcIP, dstIP, srcPort, dstPort, comm);
    var data := Lay(TCP_SIZE, puts);
    ReadBack(TCP_SIZE, puts, 0, 0, 1, data);
    ReadBack(TCP_SIZE, puts, 1, 4, 8, data);
    ReadBack(TCP_SIZE, puts, 2, 24, 28, data);
    ReadBack(TCP_SIZE, puts, 3, 28, 32, data);
    ReadBack(TCP_SIZE, puts, 4, 32, 34, data);
    ReadBack(TCP_SIZE, puts, 5, 34, 36, data);
    ReadBack(TCP_SIZE, puts, 6, 8, 24, data);
    assert data[0] == data[0..1][0];
    U32IsPow256();
    NatOfLE(pid, 4);
    NatOfLE(srcIP, 4);
    NatOfLE(dstIP, 4);
    NatOfLE(srcPort, 2);
    NatOfLE(dstPort, 2);
  }

  /** Every connect record decodes to what lies in the socket. */
  lemma TcpRoundTrip(pid: nat, sock: Key, comm: Key, puts: seq<Put>)
    requires pid < U32 && |sock| >= 16 && |comm| == 16 && puts == SocketPuts(pid, sock, comm)
    ensures Fits(TCP_SIZE, puts)
    ensures Decode(Lay(TCP_SIZE, puts)) == Some(SocketEvent(pid, sock, comm))
  {
    var srcIP, dstIP := Nat(sock[4..8]), Nat(sock[..4]);
    var srcPort, dstPort := Nat(sock[14..16]), FromBE(Nat(sock[12..14]), 2);
    PortOfPair(sock[14..16]);
    PortOfPair(sock[12..14]);
    OctetsInMemoryOrder(sock[4..8]);
    OctetsInMemoryOrder(sock[..4]);
    TcpFields(pid, srcIP, dstIP, srcPort, dstPort, comm, sock[4..8], sock[..4]);
  }
}
