/** The FAT32 reader of tp4: clusters are located by 32-bit arithmetic and followed through the table. */
module Fat {
  import opened Common

  type Byte = b: int | 0 <= b < 256

  const WORD := 0x1_0000_0000
  /** Values from here on end a chain. */
  const END_OF_CHAIN := 0x0FFF_FFF8
  /** The low 28 bits of an entry are its value. */
  const ENTRY_VALUES := 0x1000_0000
  const GENERAL_ERR := -1

  /** The fields of the BIOS parameter block that the reader uses. */
  datatype Bpb = Bpb(bytesPerSec: nat, secPerClus: nat, reserved: nat, fats: nat, rootEntries: nat, fatSize: nat)

  ghost predicate InRange(b: Bpb) {
    && 0 < b.bytesPerSec < 0x1_0000 && b.secPerClus < 0x100 && b.reserved < 0x1_0000
    && b.fats < 0x100 && b.rootEntries < 0x1_0000 && b.fatSize < WORD
  }

  /** The values that the comments beside the fields allow. */
  ghost predicate Legal(b: Bpb) {
    && InRange(b) && b.reserved > 0
    && b.bytesPerSec in {512, 1024, 2048, 4096}
    && b.secPerClus in {1, 2, 4, 8, 16, 32, 64, 128}
  }

  // ---------------------------------------------------------------- 32-bit arithmetic of the reader

  function U32(n: int): (r: nat)
    ensures r < WORD
  {
    n % WORD
  }

  function ClusterToLba(b: Bpb, cluster: nat, firstDataSector: nat): nat {
    U32(firstDataSector + U32(cluster - 2) * b.secPerClus)
  }

  function FirstDataSector(b: Bpb): nat
    requires b.bytesPerSec > 0
  {
    var rootDirSectors := (b.rootEntries * 32 + (b.bytesPerSec - 1)) / b.bytesPerSec;
    U32(b.reserved + U32(b.fats * b.fatSize) + rootDirSectors)
  }

  function ClusterSize(b: Bpb): nat {
    b.secPerClus * b.bytesPerSec
  }

  /** The byte that a cluster starts at, as `read_file` computes it. */
  function Address(b: Bpb, cluster: nat): nat
    requires b.bytesPerSec > 0
  {
    U32(ClusterToLba(b, cluster, FirstDataSector(b)) * b.bytesPerSec)
  }

  /** The start of the table as written: multiplied by the sectors of a cluster. */
  function TableAsWritten(b: Bpb): nat {
    U32(b.reserved * b.secPerClus * b.bytesPerSec)
  }

  /** The byte of an entry in a table that starts at `table`. */
  function EntryOffset(table: nat, cluster: nat): nat {
    U32(table + U32(cluster * 4))
  }

  // ---------------------------------------------------------------- the same places by the FAT32 specification

  /** The first byte of the table, 'FAT Type Determination'. */
  function TableStart(b: Bpb): nat {
    b.reserved * b.bytesPerSec
  }

  /** The first data sector, 'FAT Data Structure'. */
  function DataStart(b: Bpb): nat
    requires b.bytesPerSec > 0
  {
    b.reserved + b.fats * b.fatSize + (b.rootEntries * 32 + (b.bytesPerSec - 1)) / b.bytesPerSec
  }

  /** The first byte of a cluster. */
  function ClusterStart(b: Bpb, cluster: nat): nat
    requires b.bytesPerSec > 0 && cluster >= 2
  {
    var before: nat := cluster - 2;
    var sector: nat := DataStart(b) + before * b.secPerClus;
    sector * b.bytesPerSec
  }

  lemma Congruent(n: int)
    ensures exists q: int :: U32(n) == n + q * WORD
  {
    assert U32(n) == n + (-(n / WORD)) * WORD;
  }

  lemma SameRemainder(m: int, n: int, q: int)
    requires m == n + q * WORD
    ensures U32(m) == U32(n)
  {
    var k := n / WORD;
    assert n == k * WORD + n % WORD;
    assert m == (k + q) * WORD + n % WORD;
    RemainderIs(m, k + q, n % WORD);
  }

  lemma RemainderIs(m: int, k: int, r: int)
    requires m == k * WORD + r && 0 <= r < WORD
    ensures m % WORD == r
  {
  }

  lemma WrapsOnce(base: int, factor: int, add: int)
    ensures U32(add + U32(base) * factor) == U32(add + base * factor)
  {
    Congruent(base);
    var q: int :| U32(base) == base + q * WORD;
    assert U32(base) * factor == base * factor + (q * factor) * WORD by {
      Distribute(base, q * WORD, factor);
      Regroup(q, WORD, factor);
    }
    SameRemainder(add + U32(base) * factor, add + base * factor, q * factor);
  }

  lemma Distribute(a: int, b: int, c: int)
    ensures (a + b) * c == a * c + b * c
  {
  }

  lemma Regroup(a: int, b: int, c: int)
    ensures (a * b) * c == (a * c) * b
  {
  }

  /** All the wrapping of the reader amounts to one: its address is the specified one modulo 2^32. */
  lemma AddressWraps(b: Bpb, cluster: nat)
    requires InRange(b) && 2 <= cluster < WORD
    ensures Address(b, cluster) == U32(ClusterStart(b, cluster))
  {
    hide U32, Address;
    AddressIs(b, cluster);
    U32Is(ClusterStart(b, cluster));
  }

  /** For the clusters 0 and 1, which are not specified, that is where two clusters or one before the data would be. */
  lemma AddressIs(b: Bpb, cluster: nat)
    requires InRange(b) && cluster < WORD
    ensures Address(b, cluster) == (DataStart(b) + (cluster - 2) * b.secPerClus) * b.bytesPerSec % 4294967296
  {
    hide U32;
    var root := (b.rootEntries * 32 + (b.bytesPerSec - 1)) / b.bytesPerSec;
    WrapsOnce(b.fats * b.fatSize, 1, b.reserved + root);
    assert FirstDataSector(b) == U32(DataStart(b));
    var clusters := (cluster - 2) * b.secPerClus;
    WrapsOnce(cluster - 2, b.secPerClus, FirstDataSector(b));
    WrapsOnce(DataStart(b), 1, clusters);
    assert ClusterToLba(b, cluster, FirstDataSector(b)) == U32(DataStart(b) + clusters);
    WrapsOnce(DataStart(b) + clusters, b.bytesPerSec, 0);
    U32Is((DataStart(b) + clusters) * b.bytesPerSec);
  }

  lemma U32Is(n: int)
    ensures U32(n) == n % WORD
  {
  }

  // ---------------------------------------------------------------- the table

  function LittleEndian(bytes: seq<Byte>): (n: nat)
    requires |bytes| == 4
    ensures n < WORD
  {
    var a: int, b: int, c: int, d: int := bytes[0], bytes[1], bytes[2], bytes[3];
    a + 0x100 * b + 0x1_0000 * c + 0x100_0000 * d
  }

  predicate EntryReadable(image: seq<Byte>, table: nat, cluster: nat) {
    EntryOffset(table, cluster) + 4 <= |image|
  }

  /** The four bytes of an entry by the specification, the lowest first. */
  ghost predicate HoldsEntry(image: seq<Byte>, at: nat, entry: nat) {
    && at + 4 <= |image|
    && image[at] == entry % 256 && image[at + 1] == entry / 256 % 256
    && image[at + 2] == entry / 65536 % 256 && image[at + 3] == entry / 16777216 % 256
  }

  /** An entry of 32 bits is read as its low 28 bits, whatever its high four, and ends a chain exactly if these are one
      of the last eight values. */
  lemma EntryRead(image: seq<Byte>, table: nat, cluster: nat, value: nat, high: nat)
    requires value < 268435456 && high < 16 && table + 4 * cluster < WORD
    requires HoldsEntry(image, table + 4 * cluster, high * 268435456 + value)
    ensures EntryReadable(image, table, cluster) && EntryValue(image, table, cluster) == value
    ensures value >= END_OF_CHAIN <==> value in {268435448, 268435449, 268435450, 268435451,
                                                 268435452, 268435453, 268435454, 268435455}
  {
    hide HoldsEntry;
    EntryAt(table, cluster);
    BytesRead(image, table + 4 * cluster, high * 268435456 + value);
    hide LittleEndian, EntryOffset;
    LowBits(high, value);
  }

  lemma EntryAt(table: nat, cluster: nat)
    requires table + 4 * cluster < WORD
    ensures EntryOffset(table, cluster) == table + 4 * cluster
  {
  }

  lemma BytesRead(image: seq<Byte>, at: nat, entry: nat)
    requires entry < WORD && HoldsEntry(image, at, entry)
    ensures at + 4 <= |image| && LittleEndian(image[at..at + 4]) == entry
  {
    Digits(entry);
    assert image[at..at + 4] == [image[at], image[at + 1], image[at + 2], image[at + 3]];
  }

  lemma Digits(n: nat)
    requires n < WORD
    ensures n % 256 + 256 * (n / 256 % 256) + 65536 * (n / 65536 % 256) + 16777216 * (n / 16777216 % 256) == n
  {
    var a, b, c := n / 256, n / 65536, n / 16777216;
    assert b == a / 256 && c == b / 256;
  }

  lemma LowBits(high: nat, value: nat)
    requires value < 268435456
    ensures (high * 268435456 + value) % ENTRY_VALUES == value
  {
  }

  /** The 28 bits of an entry. */
  function EntryValue(image: seq<Byte>, table: nat, cluster: nat): (v: nat)
    requires EntryReadable(image, table, cluster)
    ensures v < ENTRY_VALUES
  {
    var at := EntryOffset(table, cluster);
    LittleEndian(image[at..at + 4]) % ENTRY_VALUES
  }

  /** What `read_file` continues with after a cluster. The error of a lookup outside the image is not looked at,
      and the cluster stays the same. */
  function Next(image: seq<Byte>, table: nat, cluster: nat): nat {
    if EntryReadable(image, table, cluster) then EntryValue(image, table, cluster) else cluster
  }

  // ---------------------------------------------------------------- the table as written

  lemma OffsetsApart(b: Bpb, cluster: nat)
    requires Legal(b) && cluster < ENTRY_VALUES && b.secPerClus > 1
    ensures var written, specified := EntryOffset(TableAsWritten(b), cluster), EntryOffset(TableStart(b), cluster);
      specified == TableStart(b) + cluster * 4 && (written + 4 <= specified || specified + 4 <= written)
  {
    var x, s := TableStart(b), b.secPerClus;
    assert 0 < x < 0x1000_0000 && x % 512 == 0 by {
      TableStartBounds(b);
    }
    assert U32(b.reserved * s * b.bytesPerSec) == U32(x * s) by {
      Regroup(b.reserved, s, b.bytesPerSec);
    }
    ScaledApart(x, s, cluster * 4);
  }

  lemma TableStartBounds(b: Bpb)
    requires Legal(b)
    ensures 0 < TableStart(b) < 0x1000_0000 && TableStart(b) % 512 == 0
  {
    if b.bytesPerSec == 512 {
      WholeBlocks(TableStart(b), b.reserved, 1);
    } else if b.bytesPerSec == 1024 {
      WholeBlocks(TableStart(b), b.reserved, 2);
    } else if b.bytesPerSec == 2048 {
      WholeBlocks(TableStart(b), b.reserved, 4);
    } else {
      WholeBlocks(TableStart(b), b.reserved, 8);
    }
  }

  lemma WholeBlocks(n: nat, reserved: nat, k: nat)
    requires 0 < reserved < 0x1_0000 && k in {1, 2, 4, 8} && n == reserved * (512 * k)
    ensures 0 < n < 0x1000_0000 && n % 512 == 0
  {
    var m := match k case 1 => reserved case 2 => 2 * reserved case 4 => 4 * reserved case _ => 8 * reserved;
    assert n == 512 * m;
  }

  /** Multiplying a table start by 2^k moves an entry by a multiple of 512 that is not a multiple of 2^32. */
  lemma ScaledApart(x: nat, s: nat, offset: nat)
    requires 0 < x < 0x1000_0000 && x % 512 == 0 && s in {2, 4, 8, 16, 32, 64, 128}
    requires offset < 4 * ENTRY_VALUES && offset % 4 == 0
    ensures var written, specified := U32(U32(x * s) + U32(offset)), U32(x + U32(offset));
      specified == x + offset && (written + 4 <= specified || specified + 4 <= written)
  {
    var y := x / 512;
    assert x == 512 * y;
    Scaled(y, s);
    ScaledApartFrom(x, x * s, y * s, y, s, offset);
  }

  lemma Scaled(y: nat, s: nat)
    ensures (512 * y) * s == 512 * (y * s) && y * (s - 1) == y * s - y
  {
    Regroup(512, y, s);
    Distribute(s, -1, y);
  }

  lemma ScaledApartFrom(x: nat, scaled: nat, p: nat, y: nat, s: nat, offset: nat)
    requires x == 512 * y && scaled == 512 * p && y * (s - 1) == p - y
    requires 0 < y < 0x8_0000 && s in {2, 4, 8, 16, 32, 64, 128}
    requires offset < 4 * ENTRY_VALUES
    ensures var written, specified := U32(U32(scaled) + U32(offset)), U32(x + U32(offset));
      specified == x + offset && (written + 4 <= specified || specified + 4 <= written)
  {
    hide U32;
    var q := (scaled + offset) / WORD;
    SumWraps(scaled, offset);
    U32Is(offset);
    U32Is(x + offset);
    NoMultiple(y, s - 1, q);
    Apart(p, y, q, offset, U32(U32(scaled) + U32(offset)));
  }

  lemma SumWraps(m: nat, n: nat)
    requires n < WORD
    ensures U32(U32(m) + U32(n)) == m + n - (m + n) / WORD * WORD
  {
    WrapsOnce(m, 1, n);
  }

  lemma Apart(p: nat, y: nat, q: int, offset: nat, written: nat)
    requires written == 512 * p + offset - q * WORD && p - y != q * 0x80_0000
    ensures written + 4 <= 512 * y + offset || 512 * y + offset + 4 <= written
  {
  }

  lemma NoMultiple(y: nat, k: nat, q: int)
    requires 0 < y < 0x8_0000 && k in {1, 3, 7, 15, 31, 63, 127}
    ensures y * k != q * 0x80_0000
  {
    if k == 31 {
      assert 31 * y != 1 * 0x80_0000;
    } else if k == 63 {
      assert 63 * y != 1 * 0x80_0000;
      assert 63 * y != 2 * 0x80_0000;
      assert 63 * y != 3 * 0x80_0000;
    } else if k == 127 {
      assert forall i :: 1 <= i < 8 ==> 127 * y != i * 0x80_0000;
    }
  }

  /** The lookup as written agrees with the specification, whatever the image, exactly when a cluster is one
      sector. */
  lemma LookupAgreesIff(b: Bpb, cluster: nat)
    requires Legal(b) && cluster < ENTRY_VALUES
    ensures (forall image: seq<Byte> ::
              Next(image, TableAsWritten(b), cluster) == Next(image, TableStart(b), cluster))
       <==> b.secPerClus == 1
  {
    if b.secPerClus == 1 {
      TableStartBounds(b);
      assert TableAsWritten(b) == TableStart(b);
    } else {
      OffsetsApart(b, cluster);
      hide Legal, TableAsWritten, TableStart, EntryOffset;
      var image := LookupDiffers(TableAsWritten(b), TableStart(b), cluster);
    }
  }

  /** An image that holds a one where only one of two lookups sees it. */
  lemma LookupDiffers(table: nat, other: nat, cluster: nat) returns (image: seq<Byte>)
    requires var m, n := EntryOffset(table, cluster), EntryOffset(other, cluster); m + 4 <= n || n + 4 <= m
    ensures Next(image, table, cluster) != Next(image, other, cluster)
  {
    hide EntryOffset;
    var m, n := EntryOffset(table, cluster), EntryOffset(other, cluster);
    image := seq(m + n + 4, i => if i == n then 1 else 0);
    assert image[n] == 1 && image[n + 1] == image[n + 2] == image[n + 3] == 0;
    assert image[m] == image[m + 1] == image[m + 2] == image[m + 3] == 0;
    assert image[n..n + 4] == [1, 0, 0, 0];
    assert image[m..m + 4] == [0, 0, 0, 0];
  }

  // ---------------------------------------------------------------- reading a file

  lemma PrependedSame(head: seq<Byte>, a: Option<seq<Byte>>, b: Option<seq<Byte>>)
    ensures Prepended(head, a) == Prepended(head, b) <==> a == b
  {
    if a.Some? && b.Some? && head + a.value == head + b.value {
      assert a.value == (head + a.value)[|head|..];
      assert b.value == (head + b.value)[|head|..];
    }
  }

  /** What `read_file` reads from a cluster on with room for so many bytes. None: an error. */
  function ReadFrom(image: seq<Byte>, b: Bpb, table: nat, cluster: nat, room: nat): Option<seq<Byte>>
    requires b.bytesPerSec > 0
    decreases room
  {
    if room == 0 then Some([])
    else
      var size, at := Min(ClusterSize(b), room), Address(b, cluster);
      if size == 0 || at + size > |image| then None
      else
        var data, next := image[at..at + size], Next(image, table, cluster);
        if next >= END_OF_CHAIN then Some(data)
        else Prepended(data, ReadFrom(image, b, table, next, room - size))
  }

  /** The bytes of a cluster. */
  function Block(image: seq<Byte>, at: nat, size: nat): seq<Byte> {
    if at + size <= |image| then image[at..at + size] else []
  }

  /** The bytes of clusters one after the other, each found by `start`. */
  function Data(image: seq<Byte>, start: nat -> nat, size: nat, chain: seq<nat>): seq<Byte> {
    if chain == [] then [] else Block(image, start(chain[0]), size) + Data(image, start, size, chain[1..])
  }

  /** The table links these clusters one after the other, and they are all inside the image. */
  ghost predicate Linked(image: seq<Byte>, start: nat -> nat, size: nat, next: nat -> nat, chain: seq<nat>) {
    && chain != [] && start(chain[0]) + size <= |image|
    && (|chain| > 1 ==>
          next(chain[0]) == chain[1] && chain[1] < END_OF_CHAIN && Linked(image, start, size, next, chain[1..]))
  }

  ghost predicate Ended(next: nat -> nat, chain: seq<nat>) {
    chain != [] && next(chain[|chain| - 1]) >= END_OF_CHAIN
  }

  function AddressOf(b: Bpb): nat -> nat
    requires b.bytesPerSec > 0
  {
    cluster => Address(b, cluster)
  }

  function NextIn(image: seq<Byte>, table: nat): nat -> nat {
    cluster => Next(image, table, cluster)
  }

  lemma {:induction false} DataLength(image: seq<Byte>, start: nat -> nat, size: nat, next: nat -> nat, chain: seq<nat>)
    requires Linked(image, start, size, next, chain)
    ensures |Data(image, start, size, chain)| == |chain| * size
  {
    if |chain| > 1 {
      DataLength(image, start, size, next, chain[1..]);
      Distribute(1, |chain| - 1, size);
    } else {
      assert Data(image, start, size, chain[1..]) == [];
      assert |chain| * size == size;
    }
  }

  lemma ReadStep(image: seq<Byte>, b: Bpb, table: nat, cluster: nat, room: nat)
    requires b.bytesPerSec > 0 && 0 < ClusterSize(b) && Address(b, cluster) + ClusterSize(b) <= |image|
    ensures var size, next := ClusterSize(b), Next(image, table, cluster);
      var block := Block(image, Address(b, cluster), size);
      ReadFrom(image, b, table, cluster, room)
      == if room <= size then Some(block[..room])
         else if next >= END_OF_CHAIN then Some(block)
         else Prepended(block, ReadFrom(image, b, table, next, room - size))
  {
    hide Address, ClusterSize, Next;
    var at, size := Address(b, cluster), ClusterSize(b);
    var block := Block(image, at, size);
    if room <= size {
      assert image[at..at + room] == block[..room];
      assert block[..room] + [] == block[..room];
    }
  }

  /** Along linked clusters that end, or that hold all there is room for, the result is the first bytes of the
      clusters. A chain with a cycle is of the second kind: the room alone ends the loop. */
  lemma {:induction false} ReadsChain(image: seq<Byte>, b: Bpb, table: nat, chain: seq<nat>, room: nat)
    requires b.bytesPerSec > 0 && ClusterSize(b) > 0
    requires Linked(image, AddressOf(b), ClusterSize(b), NextIn(image, table), chain)
    requires var all := Data(image, AddressOf(b), ClusterSize(b), chain);
      Ended(NextIn(image, table), chain) || |all| >= room
    ensures var all := Data(image, AddressOf(b), ClusterSize(b), chain);
      ReadFrom(image, b, table, chain[0], room) == Some(all[..Min(room, |all|)])
    decreases |chain|
  {
    hide Address, ClusterSize, Next, ReadFrom;
    var size, rest := ClusterSize(b), chain[1..];
    var block := Block(image, Address(b, chain[0]), size);
    var tail := Data(image, AddressOf(b), size, rest);
    ReadStep(image, b, table, chain[0], room);
    if room <= size {
      assert (block + tail)[..room] == block[..room];
    } else if rest == [] {
      assert |chain| == 1;
      assert block + tail == block;
      assert block[..size] == block;
    } else {
      ReadsChain(image, b, table, rest, room - size);
      assert (block + tail)[..Min(room, size + |tail|)] == block + tail[..Min(room - size, |tail|)];
    }
  }

  // ---------------------------------------------------------------- files by the specification

  function StartOf(b: Bpb): nat -> nat
    requires b.bytesPerSec > 0
  {
    cluster => if cluster >= 2 then ClusterStart(b, cluster) else 0
  }

  /** A chain of cluster numbers that the table links, on an image that holds it and that 32-bit addresses reach;
      it ends, or there is no more room than it fills. */
  ghost predicate WellFormed(image: seq<Byte>, b: Bpb, chain: seq<nat>, room: nat)
    requires b.bytesPerSec > 0
  {
    && |image| <= WORD && chain != [] && (forall i :: 0 <= i < |chain| ==> 2 <= chain[i] < END_OF_CHAIN)
    && Linked(image, StartOf(b), ClusterSize(b), NextIn(image, TableStart(b)), chain)
    && (Ended(NextIn(image, TableStart(b)), chain) || |Contents(image, b, chain)| >= room)
  }

  function Contents(image: seq<Byte>, b: Bpb, chain: seq<nat>): seq<Byte>
    requires b.bytesPerSec > 0
  {
    Data(image, StartOf(b), ClusterSize(b), chain)
  }

  function First(bytes: seq<Byte>, room: nat): seq<Byte> {
    bytes[..Min(room, |bytes|)]
  }

  /** The contents of a well-formed file are its clusters times their size. */
  lemma ContentsLength(image: seq<Byte>, b: Bpb, chain: seq<nat>, room: nat)
    requires b.bytesPerSec > 0 && WellFormed(image, b, chain, room)
    ensures |Contents(image, b, chain)| == |chain| * ClusterSize(b)
  {
    DataLength(image, StartOf(b), ClusterSize(b), NextIn(image, TableStart(b)), chain);
  }

  /** Every well-formed file is read as the first bytes of its clusters. */
  ghost predicate ReadsRight(b: Bpb, table: nat)
    requires b.bytesPerSec > 0
  {
    forall image: seq<Byte>, chain: seq<nat>, room: nat :: WellFormed(image, b, chain, room) ==>
      ReadFrom(image, b, table, chain[0], room) == Some(First(Contents(image, b, chain), room))
  }

  /** The clusters lie side by side from the first data sector on: each ends where the next one starts. */
  lemma ClustersAdjoin(b: Bpb, c: nat)
    requires b.bytesPerSec > 0 && c >= 2
    ensures ClusterStart(b, 2) == DataStart(b) * b.bytesPerSec
    ensures ClusterStart(b, c) + ClusterSize(b) == ClusterStart(b, c + 1)
  {
    hide DataStart;
    StartIs(b, 2);
    StartIs(b, c);
    StartIs(b, c + 1);
    Distribute(c - 2, 1, ClusterSize(b));
  }

  /** An address is the specified one exactly when it is in reach of 32 bits. */
  lemma AddressExactIff(b: Bpb, cluster: nat)
    requires InRange(b) && 2 <= cluster < WORD
    ensures Address(b, cluster) == ClusterStart(b, cluster) <==> ClusterStart(b, cluster) < WORD
  {
    AddressWraps(b, cluster);
    hide Address, ClusterStart;
  }

  lemma {:induction false} LinkedAlike(image: seq<Byte>, b: Bpb, next: nat -> nat, chain: seq<nat>)
    requires InRange(b) && ClusterSize(b) > 0 && |image| <= WORD
    requires forall i :: 0 <= i < |chain| ==> 2 <= chain[i] < END_OF_CHAIN
    requires Linked(image, StartOf(b), ClusterSize(b), next, chain)
    ensures Linked(image, AddressOf(b), ClusterSize(b), next, chain)
    ensures Data(image, AddressOf(b), ClusterSize(b), chain) == Data(image, StartOf(b), ClusterSize(b), chain)
  {
    hide Address, ClusterStart, ClusterSize;
    AddressExactIff(b, chain[0]);
    if |chain| > 1 {
      LinkedAlike(image, b, next, chain[1..]);
    }
  }

  /** With the table where the specification puts it, every well-formed file is read right. */
  lemma SpecifiedTableReadsRight(b: Bpb)
    requires Legal(b)
    ensures ReadsRight(b, TableStart(b))
  {
    hide Address, ClusterStart, ClusterSize, Linked, Next, ReadFrom, Data, Ended;
    LegalSize(b);
    forall image: seq<Byte>, chain: seq<nat>, room: nat | WellFormed(image, b, chain, room)
      ensures ReadFrom(image, b, TableStart(b), chain[0], room) == Some(First(Contents(image, b, chain), room))
    {
      LinkedAlike(image, b, NextIn(image, TableStart(b)), chain);
      ReadsChain(image, b, TableStart(b), chain, room);
    }
  }

  lemma LegalSize(b: Bpb)
    requires Legal(b)
    ensures 0 < ClusterSize(b) && b.bytesPerSec > 0
  {
    SizePositive(b);
  }

  lemma SizePositive(b: Bpb)
    requires b.bytesPerSec > 0 && b.secPerClus > 0
    ensures ClusterSize(b) > 0
  {
  }

  /** The byte at distance `d` from an entry that ends a chain, on an image of zeros. */
  function EndEntry(d: int): Byte {
    if d == 0 then 0xF8 else if d == 1 || d == 2 then 0xFF else if d == 3 then 0x0F else 0
  }

  /** An image of zeros but for the entry at `n`; a lookup elsewhere does not find the end of a chain. */
  lemma LookupMissesEnd(image: seq<Byte>, n: nat, table: nat, cluster: nat)
    requires n + 4 <= |image| && forall i :: 0 <= i < |image| ==> image[i] == EndEntry(i - n)
    requires cluster < END_OF_CHAIN
    requires EntryOffset(table, cluster) + 4 <= n || n + 4 <= EntryOffset(table, cluster)
    ensures Next(image, table, cluster) < END_OF_CHAIN
  {
    hide EntryOffset;
    var m := EntryOffset(table, cluster);
    if m + 4 <= |image| {
      assert image[m..m + 4] == [0, 0, 0, 0];
    }
  }

  lemma LookupFindsEnd(image: seq<Byte>, n: nat, table: nat, cluster: nat)
    requires n + 4 <= |image| && forall i :: 0 <= i < |image| ==> image[i] == EndEntry(i - n)
    requires EntryOffset(table, cluster) == n
    ensures Next(image, table, cluster) == END_OF_CHAIN
  {
    hide EntryOffset;
    assert image[n..n + 4] == [0xF8, 0xFF, 0xFF, 0x0F];
  }

  /** An image with a file of one cluster whose end the table as written does not show. */
  lemma OneCluster(b: Bpb) returns (image: seq<Byte>)
    requires Legal(b) && b.secPerClus > 1 && ClusterStart(b, 2) + ClusterSize(b) <= WORD
    ensures WellFormed(image, b, [2], ClusterSize(b) + 1)
    ensures Next(image, TableAsWritten(b), 2) < END_OF_CHAIN
  {
    OffsetsApart(b, 2);
    TableStartBounds(b);
    image := OneEntry(b, TableStart(b) + 8, TableAsWritten(b));
  }

  lemma OneEntry(b: Bpb, n: nat, other: nat) returns (image: seq<Byte>)
    requires b.bytesPerSec > 0 && n + 4 <= WORD && ClusterStart(b, 2) + ClusterSize(b) <= WORD
    requires EntryOffset(TableStart(b), 2) == n
    requires EntryOffset(other, 2) + 4 <= n || n + 4 <= EntryOffset(other, 2)
    ensures forall room: nat :: WellFormed(image, b, [2], room)
    ensures Next(image, other, 2) < END_OF_CHAIN
    ensures var end := ClusterStart(b, 2) + ClusterSize(b);
      |image| == if n + 4 <= end then end else n + 4
  {
    hide ClusterStart, ClusterSize, TableStart, EntryOffset, Next, Contents;
    var end := ClusterStart(b, 2) + ClusterSize(b);
    image := seq<Byte>(if n + 4 <= end then end else n + 4, i => EndEntry(i - n));
    LookupFindsEnd(image, n, TableStart(b), 2);
    LookupMissesEnd(image, n, other, 2);
  }

  /** A lookup that misses the end of a one-cluster file makes the reader go on past it. */
  lemma ReadsPastEnd(b: Bpb, image: seq<Byte>, table: nat)
    requires InRange(b) && ClusterSize(b) > 0 && WellFormed(image, b, [2], ClusterSize(b) + 1)
    requires Next(image, table, 2) < END_OF_CHAIN
    ensures !ReadsRight(b, table)
  {
    hide Address, ClusterStart, ClusterSize, Next;
    var size, next := ClusterSize(b), Next(image, table, 2);
    AddressExactIff(b, 2);
    ReadStep(image, b, table, 2, size + 1);
    var right := Some(First(Contents(image, b, [2]), size + 1));
    ContentsLength(image, b, [2], size + 1);
    assert |right.value| <= size;
    assert ReadFrom(image, b, table, next, 1).Some? ==> |ReadFrom(image, b, table, next, 1).value| > 0;
    assert ReadFrom(image, b, table, [2][0], size + 1) != right;
  }

  /** As written, `read_file` reads every well-formed file right exactly when a cluster is one sector. */
  lemma ReadsRightIff(b: Bpb)
    requires Legal(b) && ClusterStart(b, 2) + ClusterSize(b) <= WORD
    ensures ReadsRight(b, TableAsWritten(b)) <==> b.secPerClus == 1
  {
    hide ReadsRight, ClusterStart, ClusterSize;
    LegalSize(b);
    if b.secPerClus == 1 {
      TableStartBounds(b);
      assert TableAsWritten(b) == TableStart(b);
      SpecifiedTableReadsRight(b);
    } else {
      var image := OneCluster(b);
      ReadsPastEnd(b, image, TableAsWritten(b));
    }
  }

  // ---------------------------------------------------------------- places do not overlap

  /** Distinct clusters do not overlap, and none of them overlaps the reserved sectors or the tables. */
  lemma ClustersApart(b: Bpb, c: nat, d: nat)
    requires b.bytesPerSec > 0 && 2 <= c < d
    ensures ClusterStart(b, c) + ClusterSize(b) <= ClusterStart(b, d)
    ensures (b.reserved + b.fats * b.fatSize) * b.bytesPerSec <= ClusterStart(b, c)
  {
    hide ClusterStart, ClusterSize;
    StartIs(b, c);
    StartIs(b, d);
    Ordered(c - 2, 1, d - 2, ClusterSize(b));
    Ordered(b.reserved + b.fats * b.fatSize, 0, DataStart(b), b.bytesPerSec);
    Ordered(0, 0, c - 2, ClusterSize(b));
  }

  lemma Ordered(a: nat, k: nat, b: nat, size: nat)
    requires a + k <= b
    ensures a * size + k * size <= b * size
  {
    Distribute(a, k, size);
    Distribute(a + k, b - a - k, size);
  }

  lemma StartIs(b: Bpb, c: nat)
    requires b.bytesPerSec > 0 && c >= 2
    ensures ClusterStart(b, c) == DataStart(b) * b.bytesPerSec + (c - 2) * ClusterSize(b)
  {
    hide DataStart;
    Distribute(DataStart(b), (c - 2) * b.secPerClus, b.bytesPerSec);
    Associate(c - 2, b.secPerClus, b.bytesPerSec);
  }

  lemma Associate(a: int, b: int, c: int)
    ensures (a * b) * c == a * (b * c)
  {
  }

  /** As the reader addresses them, distinct clusters in reach of 32 bits do not overlap. */
  lemma AddressesApart(b: Bpb, c: nat, d: nat)
    requires InRange(b) && ClusterSize(b) > 0 && 2 <= c < d < WORD
    requires ClusterStart(b, d) + ClusterSize(b) <= WORD
    ensures Address(b, c) + ClusterSize(b) <= Address(b, d)
  {
    hide Address, ClusterStart, ClusterSize;
    ClustersApart(b, c, d);
    AddressExactIff(b, c);
    AddressExactIff(b, d);
  }

  // ---------------------------------------------------------------- a lookup that fails

  /** Reading that stops with an error when it needs an entry that cannot be read. */
  function ReportFrom(image: seq<Byte>, b: Bpb, table: nat, cluster: nat, room: nat): Option<seq<Byte>>
    requires b.bytesPerSec > 0
    decreases room
  {
    if room == 0 then Some([])
    else
      var size, at := Min(ClusterSize(b), room), Address(b, cluster);
      if size == 0 || at + size > |image| then None
      else if size == room then Some(image[at..at + size])
      else if !EntryReadable(image, table, cluster) then None
      else
        var data, next := image[at..at + size], EntryValue(image, table, cluster);
        if next >= END_OF_CHAIN then Some(data)
        else Prepended(data, ReportFrom(image, b, table, next, room - size))
  }

  lemma ReportStep(image: seq<Byte>, b: Bpb, table: nat, cluster: nat, room: nat)
    requires b.bytesPerSec > 0 && 0 < ClusterSize(b) && Address(b, cluster) + ClusterSize(b) <= |image|
    ensures var size := ClusterSize(b);
      var block := Block(image, Address(b, cluster), size);
      ReportFrom(image, b, table, cluster, room)
      == if room <= size then Some(block[..room])
         else if !EntryReadable(image, table, cluster) then None
         else
           var next := EntryValue(image, table, cluster);
           if next >= END_OF_CHAIN then Some(block)
           else Prepended(block, ReportFrom(image, b, table, next, room - size))
  {
    hide Address, ClusterSize, EntryReadable, EntryValue;
    var at, size := Address(b, cluster), ClusterSize(b);
    var block := Block(image, at, size);
    if room <= size {
      assert image[at..at + room] == block[..room];
    }
  }

  /** Every entry is readable that is needed from a cluster on: behind each run of linked clusters from there that does
      not fill the room. */
  ghost predicate EntriesReadable(image: seq<Byte>, b: Bpb, table: nat, cluster: nat, room: nat)
    requires b.bytesPerSec > 0
  {
    forall chain: seq<nat> ::
      Needed(image, b, table, cluster, room, chain) ==> EntryReadable(image, table, chain[|chain| - 1])
  }

  ghost predicate Needed(image: seq<Byte>, b: Bpb, table: nat, cluster: nat, room: nat, chain: seq<nat>)
    requires b.bytesPerSec > 0
    ensures Needed(image, b, table, cluster, room, chain) ==> chain != []
  {
    && chain != [] && chain[0] == cluster && |chain| * ClusterSize(b) < room
    && Linked(image, AddressOf(b), ClusterSize(b), NextIn(image, table), chain)
  }

  /** The cluster itself, and what is needed from the next one on. */
  lemma EntriesStep(image: seq<Byte>, b: Bpb, table: nat, cluster: nat, room: nat)
    requires b.bytesPerSec > 0 && 0 < ClusterSize(b)
    ensures Address(b, cluster) + ClusterSize(b) > |image| || room <= ClusterSize(b) ==>
      EntriesReadable(image, b, table, cluster, room)
    ensures Address(b, cluster) + ClusterSize(b) <= |image| && room > ClusterSize(b) ==>
      var next := Next(image, table, cluster);
      (EntriesReadable(image, b, table, cluster, room) <==>
         && EntryReadable(image, table, cluster)
         && (next < END_OF_CHAIN ==> EntriesReadable(image, b, table, next, room - ClusterSize(b))))
  {
    hide Address, ClusterSize, Next, EntryReadable, Needed;
    var size, next := ClusterSize(b), Next(image, table, cluster);
    if Address(b, cluster) + size > |image| || room <= size {
      forall chain: seq<nat>
        ensures !Needed(image, b, table, cluster, room, chain)
      {
        NotNeeded(image, b, table, cluster, room, chain);
      }
    } else {
      NeededOne(image, b, table, cluster, room);
      if EntriesReadable(image, b, table, cluster, room) {
        assert EntryReadable(image, table, [cluster][|[cluster]| - 1]);
        if next < END_OF_CHAIN {
          forall chain: seq<nat> | Needed(image, b, table, next, room - size, chain)
            ensures EntryReadable(image, table, chain[|chain| - 1])
          {
            NeededMore(image, b, table, cluster, room, chain);
            assert ([cluster] + chain)[|[cluster] + chain| - 1] == chain[|chain| - 1];
          }
        }
      }
      if EntryReadable(image, table, cluster)
         && (next < END_OF_CHAIN ==> EntriesReadable(image, b, table, next, room - size)) {
        forall chain: seq<nat> | Needed(image, b, table, cluster, room, chain)
          ensures EntryReadable(image, table, chain[|chain| - 1])
        {
          NeededRest(image, b, table, cluster, room, chain);
        }
      }
    }
  }

  lemma NotNeeded(image: seq<Byte>, b: Bpb, table: nat, cluster: nat, room: nat, chain: seq<nat>)
    requires b.bytesPerSec > 0
    requires Address(b, cluster) + ClusterSize(b) > |image| || room <= ClusterSize(b)
    ensures !Needed(image, b, table, cluster, room, chain)
  {
    hide Address, ClusterSize, Next;
    if chain != [] {
      Ordered(0, 1, |chain|, ClusterSize(b));
    }
  }

  lemma NeededOne(image: seq<Byte>, b: Bpb, table: nat, cluster: nat, room: nat)
    requires b.bytesPerSec > 0 && Address(b, cluster) + ClusterSize(b) <= |image| && room > ClusterSize(b)
    ensures Needed(image, b, table, cluster, room, [cluster])
  {
    hide Address, ClusterSize, Next;
  }

  lemma NeededMore(image: seq<Byte>, b: Bpb, table: nat, cluster: nat, room: nat, chain: seq<nat>)
    requires b.bytesPerSec > 0 && Address(b, cluster) + ClusterSize(b) <= |image| && room > ClusterSize(b)
    requires Next(image, table, cluster) < END_OF_CHAIN
    requires Needed(image, b, table, Next(image, table, cluster), room - ClusterSize(b), chain)
    ensures Needed(image, b, table, cluster, room, [cluster] + chain)
  {
    hide Address, ClusterSize, Next;
    assert ([cluster] + chain)[1..] == chain;
    Distribute(1, |chain|, ClusterSize(b));
  }

  lemma NeededRest(image: seq<Byte>, b: Bpb, table: nat, cluster: nat, room: nat, chain: seq<nat>)
    requires b.bytesPerSec > 0 && Needed(image, b, table, cluster, room, chain) && room > ClusterSize(b)
    ensures var next := Next(image, table, cluster);
      if |chain| == 1 then chain[|chain| - 1] == cluster
      else
        && next < END_OF_CHAIN && Needed(image, b, table, next, room - ClusterSize(b), chain[1..])
        && chain[1..][|chain[1..]| - 1] == chain[|chain| - 1]
  {
    hide Address, ClusterSize, Next;
    Distribute(1, |chain| - 1, ClusterSize(b));
  }

  /** With a failed lookup the next cluster is the same one, so reading it again goes on until the room is full, or
      ends at once; it is not an error. */
  lemma {:induction false} FailedLookupReads(image: seq<Byte>, b: Bpb, table: nat, cluster: nat, room: nat)
    requires b.bytesPerSec > 0 && 0 < ClusterSize(b) && Address(b, cluster) + ClusterSize(b) <= |image|
    requires !EntryReadable(image, table, cluster)
    ensures ReadFrom(image, b, table, cluster, room).Some?
    decreases room
  {
    hide Address, ClusterSize, EntryReadable;
    ReadStep(image, b, table, cluster, room);
    if room > ClusterSize(b) && cluster < END_OF_CHAIN {
      FailedLookupReads(image, b, table, cluster, room - ClusterSize(b));
    }
  }

  /** A cluster that is cut off by the end of the image. */
  lemma NotInImage(image: seq<Byte>, b: Bpb, table: nat, cluster: nat, room: nat)
    requires b.bytesPerSec > 0 && 0 < ClusterSize(b) && Address(b, cluster) + ClusterSize(b) > |image|
    ensures ReadFrom(image, b, table, cluster, room) == ReportFrom(image, b, table, cluster, room)
  {
    hide Address, ClusterSize, EntryReadable, EntryValue, Next;
    var at := Address(b, cluster);
    if 0 < room < ClusterSize(b) && at + room <= |image| {
      assert image[at..at + room] + [] == image[at..at + room];
    }
  }

  /** A failed lookup makes no difference to what is read exactly when every entry that is needed is readable. */
  lemma {:induction false} ErrorReportedIff(image: seq<Byte>, b: Bpb, table: nat, cluster: nat, room: nat)
    requires b.bytesPerSec > 0 && 0 < ClusterSize(b)
    ensures ReadFrom(image, b, table, cluster, room) == ReportFrom(image, b, table, cluster, room)
       <==> EntriesReadable(image, b, table, cluster, room)
    decreases room
  {
    hide Address, ClusterSize, EntryReadable, EntryValue, EntriesReadable, ReadFrom, ReportFrom;
    var size, next := ClusterSize(b), Next(image, table, cluster);
    EntriesStep(image, b, table, cluster, room);
    if Address(b, cluster) + size <= |image| {
      ReadStep(image, b, table, cluster, room);
      ReportStep(image, b, table, cluster, room);
      if room > size {
        if EntryReadable(image, table, cluster) {
          if next < END_OF_CHAIN {
            ErrorReportedIff(image, b, table, next, room - size);
            PrependedSame(Block(image, Address(b, cluster), size), ReadFrom(image, b, table, next, room - size),
                          ReportFrom(image, b, table, next, room - size));
          }
        } else {
          FailedLookupReads(image, b, table, cluster, room);
        }
      }
    } else {
      NotInImage(image, b, table, cluster, room);
    }
  }

  /** When the entry of a cluster in the image is outside the image, the bytes of the cluster fill the room, over and
      over: whatever the room, the result is the first bytes of enough copies. */
  lemma UnreadableEntryRepeats(image: seq<Byte>, b: Bpb, table: nat, cluster: nat, n: nat, room: nat)
    requires b.bytesPerSec > 0 && ClusterSize(b) > 0 && Address(b, cluster) + ClusterSize(b) <= |image|
    requires !EntryReadable(image, table, cluster) && cluster < END_OF_CHAIN && n > 0 && room <= n * ClusterSize(b)
    ensures ReadFrom(image, b, table, cluster, room)
         == Some(First(Data(image, AddressOf(b), ClusterSize(b), Repeated(cluster, n)), room))
    ensures room > ClusterSize(b) ==> ReportFrom(image, b, table, cluster, room) == None
  {
    hide Address, ClusterSize, EntryReadable;
    var chain := Repeated(cluster, n);
    RepeatedLinked(image, b, table, cluster, n);
    DataLength(image, AddressOf(b), ClusterSize(b), NextIn(image, table), chain);
    ReadsChain(image, b, table, chain, room);
    ReportStep(image, b, table, cluster, room);
  }

  function Repeated(cluster: nat, n: nat): seq<nat> {
    seq(n, _ => cluster)
  }

  lemma {:induction false} RepeatedLinked(image: seq<Byte>, b: Bpb, table: nat, cluster: nat, n: nat)
    requires b.bytesPerSec > 0 && Address(b, cluster) + ClusterSize(b) <= |image|
    requires !EntryReadable(image, table, cluster) && cluster < END_OF_CHAIN && n > 0
    ensures Linked(image, AddressOf(b), ClusterSize(b), NextIn(image, table), Repeated(cluster, n))
  {
    hide Address, ClusterSize;
    if n > 1 {
      RepeatedLinked(image, b, table, cluster, n - 1);
      assert Repeated(cluster, n)[1..] == Repeated(cluster, n - 1);
    }
  }

  // ---------------------------------------------------------------- when the table is where it is specified

  /** With the table where it is specified, every cluster in the image has its entry in the image too. */
  lemma SpecifiedEntryReadable(b: Bpb, image: seq<Byte>, c: nat)
    requires Legal(b) && 2 <= c < END_OF_CHAIN && ClusterStart(b, c) + ClusterSize(b) <= |image|
    ensures EntryReadable(image, TableStart(b), c)
  {
    TableStartBounds(b);
    ClustersApart(b, c, c + 1);
    SectorsAtLeast(b);
    hide ClusterStart, ClusterSize, Legal;
    StartAtLeast(b, c);
    OffsetExact(TableStart(b), c);
  }

  lemma SectorsAtLeast(b: Bpb)
    requires Legal(b)
    ensures ClusterSize(b) >= 512
  {
    if b.bytesPerSec == 512 {
      assert ClusterSize(b) == b.secPerClus * 512;
    } else if b.bytesPerSec == 1024 {
      assert ClusterSize(b) == b.secPerClus * 1024;
    } else if b.bytesPerSec == 2048 {
      assert ClusterSize(b) == b.secPerClus * 2048;
    } else {
      assert ClusterSize(b) == b.secPerClus * 4096;
    }
  }

  lemma StartAtLeast(b: Bpb, c: nat)
    requires b.bytesPerSec > 0 && c >= 2 && ClusterSize(b) >= 512
    ensures ClusterStart(b, c) >= TableStart(b) + (c - 2) * 512
  {
    hide DataStart, ClusterSize, ClusterStart;
    StartIs(b, c);
    DataBehindTable(b);
    Times(c - 2, 512, ClusterSize(b));
  }

  lemma DataBehindTable(b: Bpb)
    requires b.bytesPerSec > 0
    ensures DataStart(b) * b.bytesPerSec >= TableStart(b)
  {
    hide TableStart;
    TableStartIs(b);
    Ordered(b.reserved, 0, DataStart(b), b.bytesPerSec);
  }

  lemma TableStartIs(b: Bpb)
    ensures TableStart(b) == b.reserved * b.bytesPerSec
  {
  }

  lemma Times(n: nat, a: nat, b: nat)
    requires a <= b
    ensures n * a <= n * b
  {
    Ordered(a, 0, b, n);
  }

  lemma OffsetExact(table: nat, c: nat)
    requires table < 0x1000_0000 && c < END_OF_CHAIN
    ensures EntryOffset(table, c) == table + c * 4
  {
  }

  /** Every cluster whose entry is needed, from a cluster on and with room for so many bytes, is in the image where the
      specification puts it. */
  ghost predicate InPlace(image: seq<Byte>, b: Bpb, cluster: nat, room: nat)
    requires b.bytesPerSec > 0
  {
    forall chain: seq<nat> :: Needed(image, b, TableStart(b), cluster, room, chain) ==>
      var c := chain[|chain| - 1];
      2 <= c < END_OF_CHAIN && ClusterStart(b, c) + ClusterSize(b) <= |image|
  }

  /** Then no lookup that is needed fails, whether the clusters end or not. */
  lemma InPlaceErrorsReported(b: Bpb, image: seq<Byte>, cluster: nat, room: nat)
    requires Legal(b) && InPlace(image, b, cluster, room)
    ensures ReadFrom(image, b, TableStart(b), cluster, room) == ReportFrom(image, b, TableStart(b), cluster, room)
  {
    hide Legal, Needed, ClusterStart, ClusterSize, TableStart, EntryReadable, ReadFrom, ReportFrom;
    LegalSize(b);
    forall chain: seq<nat> | Needed(image, b, TableStart(b), cluster, room, chain)
      ensures EntryReadable(image, TableStart(b), chain[|chain| - 1])
    {
      SpecifiedEntryReadable(b, image, chain[|chain| - 1]);
    }
    ErrorReportedIff(image, b, TableStart(b), cluster, room);
  }

  /** What is left: a cluster that is read, and whose entry cannot be, is one that 32-bit addresses do not reach. */
  lemma UnreadableIsWrapped(b: Bpb, image: seq<Byte>, c: nat)
    requires Legal(b) && 2 <= c < END_OF_CHAIN && Address(b, c) + ClusterSize(b) <= |image|
    requires !EntryReadable(image, TableStart(b), c)
    ensures ClusterStart(b, c) >= WORD && Address(b, c) < ClusterStart(b, c)
  {
    hide Legal, Address, ClusterStart, ClusterSize, TableStart, EntryReadable;
    LegalInRange(b);
    AddressExactIff(b, c);
    AddressFits(b, c);
    if ClusterStart(b, c) + ClusterSize(b) <= |image| {
      SpecifiedEntryReadable(b, image, c);
    }
  }

  lemma LegalInRange(b: Bpb)
    requires Legal(b)
    ensures InRange(b)
  {
  }

  lemma AddressFits(b: Bpb, c: nat)
    requires b.bytesPerSec > 0
    ensures Address(b, c) < WORD
  {
  }

  /** There is one: cluster 8388609 of clusters of one sector starts at 2^32, and is read from address 0. */
  const FAR_CLUSTERS := Bpb(512, 1, 1, 0, 0, 0)

  lemma FarPlaces()
    ensures ClusterSize(FAR_CLUSTERS) == 512 && TableStart(FAR_CLUSTERS) == 512 && Legal(FAR_CLUSTERS)
    ensures ClusterStart(FAR_CLUSTERS, 8388609) == WORD && Address(FAR_CLUSTERS, 8388609) == 0
    ensures EntryOffset(512, 8388609) == 33554948
  {
    hide Address, EntryOffset;
    AddressWraps(FAR_CLUSTERS, 8388609);
    EntryAt(512, 8388609);
  }

  lemma WrappedNotReported(image: seq<Byte>)
    requires |image| == 1024
    ensures Legal(FAR_CLUSTERS) && ClusterStart(FAR_CLUSTERS, 8388609) == WORD && Address(FAR_CLUSTERS, 8388609) == 0
    ensures var table := TableStart(FAR_CLUSTERS);
      && !EntryReadable(image, table, 8388609)
      && ReadFrom(image, FAR_CLUSTERS, table, 8388609, 1024) == Some(image[..512] + image[..512])
      && ReportFrom(image, FAR_CLUSTERS, table, 8388609, 1024) == None
  {
    hide Address, ClusterSize, TableStart, EntryOffset, ClusterStart;
    var b, c := FAR_CLUSTERS, 8388609;
    FarPlaces();
    UnreadableEntryRepeats(image, b, 512, c, 2, 1024);
    var block := Block(image, 0, 512);
    assert Repeated(c, 2) == [c, c] && [c, c][1..] == [c];
    DataOne(image, AddressOf(b), 512, c);
    assert Data(image, AddressOf(b), 512, [c, c]) == block + block;
    assert (block + block)[..1024] == block + block;
  }

  /** So on every well-formed file no lookup that is needed fails. */
  lemma {:induction false} SpecifiedErrorsReported(b: Bpb, image: seq<Byte>, chain: seq<nat>, room: nat)
    requires Legal(b) && WellFormed(image, b, chain, room)
    ensures ReadFrom(image, b, TableStart(b), chain[0], room) == ReportFrom(image, b, TableStart(b), chain[0], room)
    decreases |chain|
  {
    hide Address, ClusterStart, ClusterSize, EntryReadable, EntryValue, ReadFrom, ReportFrom, Legal, WellFormed, Next;
    LegalSize(b);
    WellFormedHead(b, image, chain, room);
    var c, size, table := chain[0], ClusterSize(b), TableStart(b);
    SpecifiedEntryReadable(b, image, c);
    ReadStep(image, b, table, c, room);
    ReportStep(image, b, table, c, room);
    NextIsValue(image, table, c);
    if room > size && Next(image, table, c) < END_OF_CHAIN {
      SpecifiedErrorsReported(b, image, chain[1..], room - size);
    }
  }

  lemma NextIsValue(image: seq<Byte>, table: nat, c: nat)
    requires EntryReadable(image, table, c)
    ensures Next(image, table, c) == EntryValue(image, table, c)
  {
  }

  lemma WellFormedHead(b: Bpb, image: seq<Byte>, chain: seq<nat>, room: nat)
    requires Legal(b) && WellFormed(image, b, chain, room)
    ensures chain != []
    ensures var c, size := chain[0], ClusterSize(b);
      && 2 <= c < END_OF_CHAIN && ClusterStart(b, c) + size <= |image| && Address(b, c) == ClusterStart(b, c)
      && (room > size && Next(image, TableStart(b), c) < END_OF_CHAIN ==>
            |chain| > 1 && chain[1] == Next(image, TableStart(b), c) && WellFormed(image, b, chain[1..], room - size))
  {
    LegalSize(b);
    hide Address, ClusterStart, ClusterSize, Next, TableStart;
    var c, size := chain[0], ClusterSize(b);
    AddressExactIff(b, c);
    if room > size && |chain| == 1 {
      ContentsLength(image, b, chain, room);
      assert |chain| * size == size;
    }
  }

  /** A block, an image of it with a file of one cluster, and the file read twice: the entry as written is behind the
      end of the image. */
  const WIDE_CLUSTERS := Bpb(512, 128, 32, 2, 0, 1)

  lemma ErrorNotReported() returns (image: seq<Byte>)
    ensures Legal(WIDE_CLUSTERS) && WellFormed(image, WIDE_CLUSTERS, [2], 2 * ClusterSize(WIDE_CLUSTERS))
    ensures !EntryReadable(image, TableAsWritten(WIDE_CLUSTERS), 2)
    ensures var size, table := ClusterSize(WIDE_CLUSTERS), TableAsWritten(WIDE_CLUSTERS);
      && |Contents(image, WIDE_CLUSTERS, [2])| == size
      && ReportFrom(image, WIDE_CLUSTERS, table, 2, 2 * size) == None
      && ReadFrom(image, WIDE_CLUSTERS, table, 2, 2 * size)
         == Some(Contents(image, WIDE_CLUSTERS, [2]) + Contents(image, WIDE_CLUSTERS, [2]))
  {
    var b := WIDE_CLUSTERS;
    var size, table := ClusterSize(b), TableAsWritten(b);
    assert size == 65536 && table == 2097152 && TableStart(b) == 16384 && ClusterStart(b, 2) == 17408;
    assert EntryOffset(TableStart(b), 2) == 16392 && EntryOffset(table, 2) == 2097160;
    image := OneEntry(b, 16392, table);
    AddressExactIff(b, 2);
    hide ClusterStart, ClusterSize, TableStart, TableAsWritten, EntryOffset, Address, Next;
    assert !EntryReadable(image, table, 2);
    UnreadableEntryRepeats(image, b, table, 2, 2, 2 * size);
    CopiedTwice(image, b, 2);
  }

  lemma DataOne(image: seq<Byte>, start: nat -> nat, size: nat, c: nat)
    ensures Data(image, start, size, [c]) == Block(image, start(c), size)
  {
    assert [c][1..] == [];
    assert Block(image, start(c), size) + [] == Block(image, start(c), size);
  }

  lemma CopiedTwice(image: seq<Byte>, b: Bpb, c: nat)
    requires b.bytesPerSec > 0 && c >= 2 && Address(b, c) == ClusterStart(b, c)
    requires Address(b, c) + ClusterSize(b) <= |image|
    ensures var all := Data(image, AddressOf(b), ClusterSize(b), Repeated(c, 2));
      && |Contents(image, b, [c])| == ClusterSize(b)
      && First(all, 2 * ClusterSize(b)) == Contents(image, b, [c]) + Contents(image, b, [c])
  {
    hide Address, ClusterStart, ClusterSize;
    var block := Block(image, Address(b, c), ClusterSize(b));
    assert Repeated(c, 2) == [c, c] && [c, c][1..] == [c];
    DataOne(image, AddressOf(b), ClusterSize(b), c);
    DataOne(image, StartOf(b), ClusterSize(b), c);
    assert Data(image, AddressOf(b), ClusterSize(b), [c, c]) == block + block;
    assert |block + block| == 2 * ClusterSize(b);
  }
}
