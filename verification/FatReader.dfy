/** The reading loop of tp4 on an archive with a position. */
module FatReader {
  import opened Common
  import opened Fat

  /** An archive open for reading. */
  class Archive {
    const image: seq<Byte>
    var pos: nat

    constructor (image: seq<Byte>)
      ensures this.image == image && pos == 0
    {
      this.image := image;
      pos := 0;
    }

    /** `fseek` from the start: any position is accepted, past the end too. */
    method Seek(offset: nat)
      modifies this`pos
      ensures pos == offset
    {
      pos := offset;
    }

    /** `fread` of one item of n bytes: 1 if all of them are there, 0 if not or if there are none to read. */
    method Read(buff: array<Byte>, at: nat, n: nat) returns (items: nat)
      requires at + n <= buff.Length
      modifies this`pos, buff
      ensures items == if 0 < n && old(pos) + n <= |image| then 1 else 0
      ensures items == 1 ==> pos == old(pos) + n && buff[at..at + n] == image[old(pos)..old(pos) + n]
      ensures buff[..at] == old(buff[..at]) && buff[at + n..] == old(buff[at + n..])
    {
      ghost var was, start := buff[..], pos;
      var i := 0;
      while i < n && pos < |image|
        invariant i <= n && pos == start + i && (i > 0 ==> pos <= |image|)
        invariant forall k :: 0 <= k < buff.Length ==>
                    buff[k] == if at <= k < at + i then image[start + k - at] else was[k]
      {
        buff[at + i] := image[pos];
        i := i + 1;
        pos := pos + 1;
      }
      items := if 0 < n && i == n then 1 else 0;
      if 0 < n && i == n {
        assert buff[at..at + n] == image[start..start + n];
      }
    }
  }

  /** The cluster number that a directory entry holds in two halves. */
  function FirstCluster(high: nat, low: nat): nat {
    U32(high * 0x1_0000 + low)
  }

  /** `get_cluster_chain_value`: the value is left alone when the entry cannot be read. */
  method ChainValue(archive: Archive, b: Bpb, cluster: nat, value: nat) returns (code: int, next: nat)
    modifies archive`pos
    ensures code == if EntryReadable(archive.image, TableAsWritten(b), cluster) then 0 else GENERAL_ERR
    ensures code == 0 ==> next == EntryValue(archive.image, TableAsWritten(b), cluster)
    ensures code != 0 ==> next == value
    ensures value == cluster ==> next == Next(archive.image, TableAsWritten(b), cluster)
  {
    var table := U32(b.reserved * b.secPerClus * b.bytesPerSec);
    var offset := U32(table + U32(cluster * 4));
    archive.Seek(offset);
    var word := new Byte[4];
    var items := archive.Read(word, 0, 4);
    if items != 1 {
      return GENERAL_ERR, value;
    }
    assert word[..] == word[0..4];
    return 0, LittleEndian(word[..]) % ENTRY_VALUES;
  }

  /** One round of the loop of `read_file`. */
  lemma ReadRound(image: seq<Byte>, b: Bpb, table: nat, cluster: nat, room: nat)
    requires b.bytesPerSec > 0 && room > 0
    ensures var size, at, next := Min(ClusterSize(b), room), Address(b, cluster), Next(image, table, cluster);
      ReadFrom(image, b, table, cluster, room)
      == if size == 0 || at + size > |image| then None
         else if next >= END_OF_CHAIN then Some(image[at..at + size])
         else Prepended(image[at..at + size], ReadFrom(image, b, table, next, room - size))
  {
  }

  /** The part of a round of `read_file` that moves bytes. */
  method ReadCluster(archive: Archive, b: Bpb, cluster: nat, first: nat, buff: array<Byte>, at: nat, room: nat)
    returns (items: nat, toRead: nat)
    requires b.bytesPerSec > 0 && first == FirstDataSector(b) && at + room <= buff.Length
    modifies archive`pos, buff
    ensures toRead == Min(ClusterSize(b), room) && toRead <= room
    ensures items == if toRead > 0 && Address(b, cluster) + toRead <= |archive.image| then 1 else 0
    ensures items == 1 ==>
      buff[at..at + toRead] == archive.image[Address(b, cluster)..Address(b, cluster) + toRead]
    ensures buff[..at] == old(buff[..at]) && buff[at + toRead..] == old(buff[at + toRead..])
    ensures buff[at + room..] == old(buff[at + room..])
  {
    var size := b.secPerClus * b.bytesPerSec;
    var lba := U32(ClusterToLba(b, cluster, first) * b.bytesPerSec);
    assert lba == Address(b, cluster);
    hide Address;
    archive.Seek(lba);
    toRead := if size < room then size else room;
    items := archive.Read(buff, at, toRead);
    assert buff[at + room..] == buff[at + toRead..][room - toRead..];
  }

  /** For clusters of one sector: what is left in the buffer are the first bytes of the file whose first cluster is
      given in halves. */
  ghost predicate HoldsFile(image: seq<Byte>, b: Bpb, high: nat, low: nat, room: nat, code: int, buff: seq<Byte>)
    requires b.bytesPerSec > 0
  {
    Legal(b) && b.secPerClus == 1 ==> forall chain: seq<nat> ::
      WellFormed(image, b, chain, room) && high == chain[0] / 65536 && low == chain[0] % 65536 ==>
        var bytes := First(Contents(image, b, chain), room);
        code == |bytes| <= |buff| && buff[..|bytes|] == bytes
  }

  lemma FileHeld(image: seq<Byte>, b: Bpb, high: nat, low: nat, room: nat, code: int, buff: seq<Byte>)
    requires b.bytesPerSec > 0
    requires var result := ReadFrom(image, b, TableAsWritten(b), FirstCluster(high, low), room);
      && code == (if result.None? then GENERAL_ERR else |result.value|)
      && (result.Some? ==> |result.value| <= |buff| && buff[..|result.value|] == result.value)
    ensures HoldsFile(image, b, high, low, room, code, buff)
  {
    hide ReadFrom, Contents, First, Linked, Ended;
    if Legal(b) && b.secPerClus == 1 {
      SpecifiedTableReadsRight(b);
      assert TableAsWritten(b) == TableStart(b) by { TableStartBounds(b); }
      hide TableAsWritten, TableStart, Legal;
      forall chain: seq<nat> |
        WellFormed(image, b, chain, room) && high == chain[0] / 65536 && low == chain[0] % 65536
        ensures FirstCluster(high, low) == chain[0]
      {
        U32Is(chain[0]);
        assert chain[0] < WORD;
      }
    }
  }

  /** `read_file`: the number of bytes read into the buffer, or an error. */
  method ReadFile(archive: Archive, b: Bpb, high: nat, low: nat, buff: array<Byte>, maxLen: nat) returns (code: int)
    requires b.bytesPerSec > 0 && maxLen <= buff.Length
    modifies archive`pos, buff
    ensures var result := ReadFrom(archive.image, b, TableAsWritten(b), FirstCluster(high, low), maxLen);
      && code == (if result.None? then -1 else |result.value|)
      && (result.Some? ==> |result.value| <= maxLen && buff[..|result.value|] == result.value
                           && buff[|result.value|..] == old(buff[|result.value|..]))
    ensures buff[maxLen..] == old(buff[maxLen..])
    ensures HoldsFile(archive.image, b, high, low, maxLen, code, buff[..])
  {
    hide ReadFrom, Address, Next, TableAsWritten, ClusterSize, FirstDataSector, FirstCluster, EntryReadable, Min;
    hide HoldsFile;
    var current: nat := FirstCluster(high, low);
    var first := FirstDataSector(b);
    ghost var image, table := archive.image, TableAsWritten(b);
    ghost var result := ReadFrom(image, b, table, current, maxLen);
    var bytesRead: nat := 0;
    var done := false;
    PrependedEnds([], result);
    while !done
      invariant bytesRead <= maxLen
      invariant buff[bytesRead..] == old(buff[bytesRead..])
      invariant done ==> result == Some(buff[..bytesRead])
      invariant !done ==>
          result == Prepended(buff[..bytesRead], ReadFrom(image, b, table, current, maxLen - bytesRead))
      decreases !done, maxLen - bytesRead
    {
      if bytesRead >= maxLen {
        NoRoom(image, b, table, current, buff[..bytesRead]);
        code := bytesRead;
        FileHeld(image, b, high, low, maxLen, code, buff[..]);
        return;
      }
      ghost var head, tail, room := buff[..bytesRead], buff[bytesRead..], maxLen - bytesRead;
      ReadRound(image, b, table, current, room);
      var items, toRead := ReadCluster(archive, b, current, first, buff, bytesRead, maxLen - bytesRead);
      if items != 1 {
        code := GENERAL_ERR;
        FileHeld(image, b, high, low, maxLen, code, buff[..]);
        return;
      }
      ghost var data := buff[bytesRead..bytesRead + toRead];
      assert buff[..bytesRead + toRead] == head + data;
      assert buff[bytesRead + toRead..] == tail[toRead..] == old(buff[bytesRead + toRead..]);
      bytesRead := bytesRead + toRead;
      var previous := current;
      var ignored;
      ignored, current := ChainValue(archive, b, previous, current);
      PrependedTwice(head, data, ReadFrom(image, b, table, current, maxLen - bytesRead));
      if current >= END_OF_CHAIN {
        done := true;
      }
    }
    code := bytesRead;
    FileHeld(image, b, high, low, maxLen, code, buff[..]);
  }

  lemma NoRoom(image: seq<Byte>, b: Bpb, table: nat, cluster: nat, head: seq<Byte>)
    requires b.bytesPerSec > 0
    ensures Prepended(head, ReadFrom(image, b, table, cluster, 0)) == Some(head)
  {
    PrependedEnds(head, None);
  }
}
