/** Writing a disk image with a partition table into a file, skipping over
    blocks of zeros. */
module MakeDisk {
  import opened Bytes

  // ---------------------------------------------------------------------- files

  function At(s: seq<Byte>, i: nat): Byte {
    if i < |s| then s[i] else 0
  }

  /** `s` extended with zeros to length `n` if it is shorter. */
  function Pad(s: seq<Byte>, n: nat): (r: seq<Byte>)
    ensures |r| == if |s| < n then n else |s|
    ensures forall i :: 0 <= i < |r| ==> r[i] == At(s, i)
  {
    if |s| < n then s + Zeros(n - |s|) else s
  }

  function Put(s: seq<Byte>, pos: nat, data: seq<Byte>): (r: seq<Byte>)
    ensures |r| == if |s| < pos + |data| then pos + |data| else |s|
    ensures forall i :: 0 <= i < |r| ==> r[i] == if pos <= i < pos + |data| then data[i - pos] else At(s, i)
  {
    var p := Pad(s, pos + |data|);
    p[..pos] + data + p[pos + |data|..]
  }

  class DiskFile {
    var bytes: seq<Byte>
    var pos: nat

    /** An empty file, open for writing. */
    constructor ()
      ensures bytes == [] && pos == 0
    {
      bytes, pos := [], 0;
    }

    method Write(data: seq<Byte>)
      modifies this
      ensures pos == old(pos) + |data|
      ensures bytes == if data == [] then old(bytes) else Put(old(bytes), old(pos), data)
    {
      if data != [] {
        bytes := Put(bytes, pos, data);
      }
      pos := pos + |data|;
    }

    /** Moves the position only; the file grows when something is written. */
    method Seek(distance: nat)
      modifies this`pos
      ensures pos == old(pos) + distance
    {
      pos := pos + distance;
    }

    /** Makes the file end at the position. */
    method Truncate()
      modifies this`bytes
      ensures bytes == Pad(old(bytes), pos)[..pos]
    {
      bytes := Pad(bytes, pos)[..pos];
    }

    method WriteSparse(data: seq<Byte>)
      modifies this
      ensures pos == old(pos) + |data|
      ensures bytes == Sparse(old(bytes), old(pos), data)
    {
      hide Put, Sparse, AllZero;
      ghost var s0, p0 := bytes, pos;
      var i := 0;
      assert Drop(data, 0) == data;
      while i < |data|
        invariant 0 <= i
        invariant pos == p0 + |data| - |Drop(data, i)|
        invariant Sparse(s0, p0, data) == Sparse(bytes, pos, Drop(data, i))
      {
        var block := data[i..if i + BLOCK < |data| then i + BLOCK else |data|];
        SparseStep(bytes, pos, data[i..]);
        IsZero(block);
        assert block == FirstBlock(data[i..]);
        assert data[i..][|block|..] == Drop(data, i + BLOCK);
        if block == Zeros(BLOCK)[..|block|] {
          Seek(|block|);
        } else {
          Write(block);
        }
        i := i + BLOCK;
      }
      SparseOfNothing(bytes, pos);
    }
  }

  // -------------------------------------------------------------- sparse writing

  const BLOCK := 4096

  /** `data[i:]` */
  function Drop(data: seq<Byte>, i: nat): seq<Byte> {
    if i < |data| then data[i..] else []
  }

  predicate AllZero(s: seq<Byte>) {
    forall k :: 0 <= k < |s| ==> s[k] == 0
  }

  lemma IsZero(block: seq<Byte>)
    requires |block| <= BLOCK
    ensures block == Zeros(BLOCK)[..|block|] <==> AllZero(block)
  {
  }

  function FirstBlock(data: seq<Byte>): seq<Byte> {
    data[..if |data| < BLOCK then |data| else BLOCK]
  }

  /** The file after the blocks of `data` that are not all zero were written. */
  function Sparse(s: seq<Byte>, pos: nat, data: seq<Byte>): seq<Byte>
    decreases |data|
  {
    if data == [] then s
    else
      var block := FirstBlock(data);
      Sparse(if AllZero(block) then s else Put(s, pos, block), pos + |block|, data[|block|..])
  }

  lemma SparseOfNothing(s: seq<Byte>, pos: nat)
    ensures Sparse(s, pos, []) == s
  {
  }

  lemma SparseStep(s: seq<Byte>, pos: nat, data: seq<Byte>)
    requires data != []
    ensures var block := FirstBlock(data);
            && block != []
            && Sparse(s, pos, data)
               == Sparse(if AllZero(block) then s else Put(s, pos, block), pos + |block|, data[|block|..])
  {
  }

  /** Byte `k` of the data belongs to a block that is skipped. */
  predicate Skipped(data: seq<Byte>, k: nat)
    requires k < |data|
    decreases |data|
  {
    var block := FirstBlock(data);
    if k < |block| then AllZero(block) else Skipped(data[|block|..], k - |block|)
  }

  /** Every skipped byte of the data falls on a zero of the file. */
  predicate SkipsZeros(s: seq<Byte>, pos: nat, data: seq<Byte>) {
    forall k | 0 <= k < |data| && Skipped(data, k) :: At(s, pos + k) == 0
  }

  lemma {:induction false} SparseBytes(s: seq<Byte>, pos: nat, data: seq<Byte>, i: nat)
    ensures At(Sparse(s, pos, data), i)
            == if pos <= i < pos + |data| && !Skipped(data, i - pos) then data[i - pos] else At(s, i)
    ensures |s| <= |Sparse(s, pos, data)|
    ensures |Sparse(s, pos, data)| <= if |s| < pos + |data| then pos + |data| else |s|
    decreases |data|
  {
    hide Sparse, Put, AllZero;
    if data == [] {
      SparseOfNothing(s, pos);
    } else {
      SparseStep(s, pos, data);
      var block := FirstBlock(data);
      var t := if AllZero(block) then s else Put(s, pos, block);
      SparseBytes(t, pos + |block|, data[|block|..], i);
      if pos <= i < pos + |data| {
        SkippedStep(data, i - pos);
      }
    }
  }

  lemma SkippedStep(data: seq<Byte>, k: nat)
    requires k < |data|
    ensures var block := FirstBlock(data);
            if k < |block| then data[k] == block[k] && Skipped(data, k) == AllZero(block)
            else data[k] == data[|block|..][k - |block|] && Skipped(data, k) == Skipped(data[|block|..], k - |block|)
  {
  }

  lemma {:induction false} SkippedIsZero(data: seq<Byte>, k: nat)
    requires k < |data| && Skipped(data, k)
    ensures data[k] == 0
    decreases |data|
  {
    var block := FirstBlock(data);
    if k < |block| {
      assert block[k] == data[k];
    } else {
      SkippedIsZero(data[|block|..], k - |block|);
    }
  }

  /** Sparse writing leaves the file as dense writing does, up to the zeros at
      its end, exactly when the skipped bytes of the file were zero already. */
  lemma SparseIsDense(s: seq<Byte>, pos: nat, data: seq<Byte>)
    ensures Pad(Sparse(s, pos, data), pos + |data|) == Put(s, pos, data)
            <==> SkipsZeros(s, pos, data)
  {
    hide Sparse, Skipped, Pad, Put;
    var sparse, dense := Pad(Sparse(s, pos, data), pos + |data|), Put(s, pos, data);
    SparseBytes(s, pos, data, 0);
    assert |sparse| == |dense|;
    forall i | 0 <= i < |dense|
      ensures sparse[i] == if pos <= i < pos + |data| && !Skipped(data, i - pos) then data[i - pos] else At(s, i)
    {
      SparseBytes(s, pos, data, i);
    }
    forall k | 0 <= k < |data| && Skipped(data, k)
      ensures sparse[pos + k] == dense[pos + k] <==> At(s, pos + k) == 0
    {
      SkippedIsZero(data, k);
    }
    if SkipsZeros(s, pos, data) {
      forall i | 0 <= i < |dense| ensures sparse[i] == dense[i] {
        if pos <= i < pos + |data| && Skipped(data, i - pos) {
          assert sparse[pos + (i - pos)] == dense[pos + (i - pos)];
        }
      }
      assert sparse == dense;
    } else {
      var k :| 0 <= k < |data| && Skipped(data, k) && At(s, pos + k) != 0;
      assert sparse[pos + k] != dense[pos + k];
    }
  }

  /** Beyond the end of the file there is nothing to overwrite. */
  lemma SparseAppends(s: seq<Byte>, pos: nat, data: seq<Byte>)
    requires |s| <= pos
    ensures |Sparse(s, pos, data)| <= pos + |data|
    ensures Pad(Sparse(s, pos, data), pos + |data|) == Pad(s, pos) + data
  {
    hide Sparse, Skipped, Pad, Put;
    SparseIsDense(s, pos, data);
    SparseBytes(s, pos, data, 0);
    assert Put(s, pos, data) == Pad(s, pos) + data;
  }

  // --------------------------------------------------------- the partition table

  const DATA_OFFSET := 2 * 1024 * 1024

  function RoundTo(n: nat, g: nat): nat
    requires g > 0
  {
    n + (g - n % g)
  }

  function Low(n: nat): Byte {
    n % 256
  }

  /** A number in four bytes, the lowest first. */
  function Pack(n: nat): (r: seq<Byte>)
    requires n < 0x1_0000_0000
    ensures |r| == 4
  {
    [Low(n), Low(n / 256), Low(n / 256 / 256), Low(n / 256 / 256 / 256)]
  }

  function Unpack(s: seq<Byte>): nat
    requires |s| == 4
  {
    var b0: int, b1: int, b2: int, b3: int := s[0], s[1], s[2], s[3];
    b0 + 256 * (b1 + 256 * (b2 + 256 * b3))
  }

  lemma UnpackPack(n: nat)
    requires n < 0x1_0000_0000
    ensures Unpack(Pack(n)) == n
  {
  }

  predicate Packs(start: nat, size: nat) {
    start / 512 < 0x1_0000_0000 && size / 512 < 0x1_0000_0000
  }

  function Entry(start: nat, size: nat): (r: seq<Byte>)
    requires Packs(start, size)
    ensures |r| == 16
  {
    Zeros(4) + [0x83] + Zeros(3) + Pack(start / 512) + Pack(size / 512)
  }

  /** Where the data after the given parts begins. */
  function End(parts: seq<seq<Byte>>, start: nat): (r: nat)
    ensures r >= start
  {
    if parts == [] then start else End(parts[1..], start + RoundTo(|parts[0]|, 512))
  }

  predicate Fits(parts: seq<seq<Byte>>, start: nat) {
    parts == []
    || (Packs(start, RoundTo(|parts[0]|, 512)) && Fits(parts[1..], start + RoundTo(|parts[0]|, 512)))
  }

  function Table(parts: seq<seq<Byte>>, start: nat): (r: seq<Byte>)
    requires Fits(parts, start)
    ensures |r| == 16 * |parts|
  {
    if parts == [] then []
    else
      var size := RoundTo(|parts[0]|, 512);
      Entry(start, size) + Table(parts[1..], start + size)
  }

  function Header(parts: seq<seq<Byte>>): (r: seq<Byte>)
    requires |parts| <= 4 && Fits(parts, DATA_OFFSET)
    ensures |r| == 512
  {
    Zeros(446) + Table(parts, DATA_OFFSET) + Zeros(64 - 16 * |parts|) + [0x55, 0xAA]
  }

  function Body(parts: seq<seq<Byte>>): seq<Byte> {
    if parts == [] then []
    else Padded(parts[0]) + Body(parts[1..])
  }

  function Image(parts: seq<seq<Byte>>): seq<Byte>
    requires |parts| <= 4 && Fits(parts, DATA_OFFSET)
  {
    Header(parts) + Zeros(DATA_OFFSET - 512) + Body(parts)
  }

  method SetSlice(a: array<Byte>, from: nat, s: seq<Byte>)
    requires from + |s| <= a.Length
    modifies a
    ensures a[..] == old(a[..])[..from] + s + old(a[..])[from + |s|..]
  {
    forall k | 0 <= k < |s| {
      a[from + k] := s[k];
    }
  }

  lemma {:induction false} Snoc(parts: seq<seq<Byte>>, part: seq<Byte>, start: nat)
    ensures End(parts + [part], start) == End(parts, start) + RoundTo(|part|, 512)
    ensures Fits(parts + [part], start) <==> Fits(parts, start) && Packs(End(parts, start), RoundTo(|part|, 512))
    ensures Fits(parts + [part], start)
            ==> Table(parts + [part], start) == Table(parts, start) + Entry(End(parts, start), RoundTo(|part|, 512))
  {
    hide Packs, RoundTo, Entry;
    if parts == [] {
      assert [part][1..] == [];
      assert parts + [part] == [part];
    } else {
      Snoc(parts[1..], part, start + RoundTo(|parts[0]|, 512));
      assert (parts + [part])[1..] == parts[1..] + [part];
    }
  }

  function Padded(part: seq<Byte>): seq<Byte> {
    part + Zeros(RoundTo(|part|, 512) - |part|)
  }

  lemma {:induction false} BodySnoc(parts: seq<seq<Byte>>, part: seq<Byte>)
    ensures Body(parts + [part]) == Body(parts) + Padded(part)
  {
    hide Padded;
    if parts == [] {
      assert [part][1..] == [];
      assert parts + [part] == [part];
    } else {
      BodySnoc(parts[1..], part);
      assert (parts + [part])[1..] == parts[1..] + [part];
    }
  }

  lemma {:induction false} FitsPrefix(parts: seq<seq<Byte>>, start: nat, i: nat)
    requires i <= |parts| && Fits(parts, start)
    ensures Fits(parts[..i], start)
  {
    hide Packs, RoundTo;
    if i > 0 {
      FitsPrefix(parts[1..], start + RoundTo(|parts[0]|, 512), i - 1);
      assert parts[..i][1..] == parts[1..][..i - 1];
    }
  }

  datatype Outcome = Done | ValueError | StructError

  /** The bytes of one table entry; `None` if a number does not fit. */
  method PartBytes(start: nat, size: nat) returns (ok: bool, partbytes: array<Byte>)
    ensures ok == Packs(start, size)
    ensures ok ==> fresh(partbytes) && partbytes[..] == Entry(start, size)
  {
    hide Pack;
    partbytes := new Byte[16](_ => 0);
    partbytes[4] := 0x83;
    if !Packs(start, size) {
      return false, partbytes;
    }
    ghost var empty := partbytes[..];
    SetSlice(partbytes, 8, Pack(start / 512));
    SetSlice(partbytes, 12, Pack(size / 512));
    EntryIsFilled(empty, Pack(start / 512), Pack(size / 512));
    ok := true;
  }

  lemma EntryIsFilled(empty: seq<Byte>, first: seq<Byte>, sectors: seq<Byte>)
    requires empty == Zeros(16)[4 := 0x83] && |first| == 4 && |sectors| == 4
    ensures var half := empty[..8] + first + empty[12..];
            half[..12] + sectors + half[16..] == Zeros(4) + [0x83] + Zeros(3) + first + sectors
  {
  }

  function Partial(table: seq<Byte>): seq<Byte>
    requires |table| <= 64
  {
    Zeros(446) + table + Zeros(66 - |table|)
  }

  lemma PartialPlaces(table: seq<Byte>, entry: seq<Byte>, before: seq<Byte>)
    requires |table| + 16 <= 64 && |entry| == 16 && before == Partial(table)
    ensures before[..446 + |table|] + entry + before[446 + |table| + 16..] == Partial(table + entry)
  {
  }

  method BuildHeader(parts: seq<seq<Byte>>) returns (ok: bool, header: array<Byte>)
    requires |parts| <= 4
    ensures ok == Fits(parts, DATA_OFFSET)
    ensures ok ==> header[..] == Header(parts)
  {
    hide Packs, Entry, Partial, RoundTo;
    header := new Byte[512](_ => 0);
    var currentData := DATA_OFFSET;
    assert header[..] == Partial([]) by { EmptyTable(header[..]); }
    var i := 0;
    while i < |parts|
      invariant 0 <= i <= |parts| && header.Length == 512 && fresh(header)
      invariant Fits(parts[..i], DATA_OFFSET) && currentData == End(parts[..i], DATA_OFFSET)
      invariant header[..] == Partial(Table(parts[..i], DATA_OFFSET))
    {
      var roundedSize := RoundTo(|parts[i]|, 512);
      ghost var before, table := header[..], Table(parts[..i], DATA_OFFSET);
      Snoc(parts[..i], parts[i], DATA_OFFSET);
      assert parts[..i + 1] == parts[..i] + [parts[i]];
      var packed, partbytes := PartBytes(currentData, roundedSize);
      if !packed {
        if Fits(parts, DATA_OFFSET) {
          FitsPrefix(parts, DATA_OFFSET, i + 1);
        }
        return false, header;
      }
      PartialPlaces(table, partbytes[..], before);
      SetSlice(header, 446 + 16 * i, partbytes[..]);
      currentData := currentData + roundedSize;
      i := i + 1;
    }
    assert parts[..|parts|] == parts;
    ghost var before := header[..];
    header[0x1FE], header[0x1FF] := 0x55, 0xAA;
    Signed(parts, before, header[..]);
    ok := true;
  }

  lemma EmptyTable(header: seq<Byte>)
    requires header == Zeros(512)
    ensures header == Partial([])
  {
  }

  lemma Signed(parts: seq<seq<Byte>>, before: seq<Byte>, after: seq<Byte>)
    requires |parts| <= 4 && Fits(parts, DATA_OFFSET)
    requires before == Partial(Table(parts, DATA_OFFSET)) && after == before[0x1FE := 0x55][0x1FF := 0xAA]
    ensures after == Header(parts)
  {
    hide Fits, Table, Entry;
  }

  method WriteParts(f: DiskFile, parts: seq<seq<Byte>>)
    requires |f.bytes| <= f.pos
    modifies f
    ensures |f.bytes| <= f.pos == old(f.pos) + |Body(parts)|
    ensures Pad(f.bytes, f.pos) == Pad(old(f.bytes), old(f.pos)) + Body(parts)
  {
    hide Pad, Sparse, Body, RoundTo;
    ghost var before := Pad(f.bytes, f.pos);
    NoBody();
    for i := 0 to |parts|
      invariant |f.bytes| <= f.pos == old(f.pos) + |Body(parts[..i])|
      invariant Pad(f.bytes, f.pos) == before + Body(parts[..i])
    {
      var part := parts[i];
      BodySnoc(parts[..i], part);
      assert parts[..i + 1] == parts[..i] + [part];
      var roundedSize := RoundTo(|part|, 512);
      SparseAppends(f.bytes, f.pos, part);
      f.WriteSparse(part);
      Skip(f.bytes, f.pos, roundedSize - |part|);
      f.Seek(roundedSize - |part|);
    }
    assert parts[..|parts|] == parts;
  }

  lemma NoBody()
    ensures Body([]) == []
  {
  }

  lemma Skip(s: seq<Byte>, pos: nat, n: nat)
    requires |s| <= pos
    ensures Pad(s, pos + n) == Pad(s, pos) + Zeros(n)
  {
  }

  /** Writes the image of `parts`; on an error the file is not created. */
  method WriteDisk(parts: seq<seq<Byte>>) returns (r: Outcome, file: seq<DiskFile>)
    ensures |parts| > 4 ==> r == ValueError
    ensures |parts| <= 4 && !Fits(parts, DATA_OFFSET) ==> r == StructError
    ensures |parts| <= 4 && Fits(parts, DATA_OFFSET) ==> r == Done
    ensures r != Done ==> file == []
    ensures r == Done ==> |file| == 1 && fresh(file[0]) && file[0].bytes == Image(parts)
  {
    if |parts| > 4 {
      return ValueError, [];
    }
    var ok, header := BuildHeader(parts);
    if !ok {
      return StructError, [];
    }
    hide Pad, Body;
    var f := new DiskFile();
    f.Write(header[..]);
    Started(header[..]);
    Skip(f.bytes, f.pos, DATA_OFFSET - 512);
    f.Seek(DATA_OFFSET - 512);
    WriteParts(f, parts);
    f.Truncate();
    return Done, [f];
  }

  lemma Started(header: seq<Byte>)
    requires |header| == 512
    ensures Put([], 0, header) == header && Pad(header, 512) == header
  {
    assert forall i :: 0 <= i < 512 ==> Put([], 0, header)[i] == header[i];
  }

  // ------------------------------------------------------------ reading it back

  /** A table entry as a boot loader reads it, in sectors of 512 bytes. */
  datatype Extent = Extent(kind: Byte, first: nat, sectors: nat)

  function ReadEntry(image: seq<Byte>, i: nat): Extent
    requires |image| >= 512 && i < 4
  {
    var e := image[446 + 16 * i..446 + 16 * i + 16];
    Extent(e[4], Unpack(e[8..12]), Unpack(e[12..16]))
  }

  lemma RoundedUp(n: nat)
    ensures RoundTo(n, 512) % 512 == 0 && 1 <= RoundTo(n, 512) - n <= 512
  {
  }

  lemma PaddedLength(part: seq<Byte>)
    ensures |Padded(part)| == RoundTo(|part|, 512)
  {
    RoundedUp(|part|);
  }

  lemma {:induction false} EndIsBody(parts: seq<seq<Byte>>, start: nat)
    ensures End(parts, start) == start + |Body(parts)|
  {
    hide RoundTo, Padded;
    if parts != [] {
      PaddedLength(parts[0]);
      EndIsBody(parts[1..], start + RoundTo(|parts[0]|, 512));
    }
  }

  lemma AddAligned(a: nat, b: nat)
    requires a % 512 == 0 && b % 512 == 0
    ensures (a + b) % 512 == 0
  {
  }

  lemma {:induction false} EndIsAligned(parts: seq<seq<Byte>>, start: nat)
    requires start % 512 == 0
    ensures End(parts, start) % 512 == 0
  {
    hide RoundTo;
    if parts != [] {
      RoundedUp(|parts[0]|);
      AddAligned(start, RoundTo(|parts[0]|, 512));
      EndIsAligned(parts[1..], start + RoundTo(|parts[0]|, 512));
    }
  }

  lemma BodyCons(part: seq<Byte>, parts: seq<seq<Byte>>)
    ensures Body([part] + parts) == Padded(part) + Body(parts) && Body([]) == []
  {
    hide Padded;
    assert ([part] + parts)[1..] == parts;
  }

  lemma {:induction false} BodyAppend(a: seq<seq<Byte>>, b: seq<seq<Byte>>)
    ensures Body(a + b) == Body(a) + Body(b)
  {
    hide Body, Padded;
    if a == [] {
      BodyCons([], []);
      assert a + b == b;
    } else {
      BodyCons(a[0], a[1..]);
      BodyCons(a[0], a[1..] + b);
      BodyAppend(a[1..], b);
      assert a == [a[0]] + a[1..] && a + b == [a[0]] + (a[1..] + b);
    }
  }

  lemma {:induction false} TableAppend(a: seq<seq<Byte>>, b: seq<seq<Byte>>, start: nat)
    requires Fits(a + b, start)
    ensures Fits(a, start) && Fits(b, End(a, start))
    ensures Table(a + b, start) == Table(a, start) + Table(b, End(a, start))
  {
    hide Packs, Entry, RoundTo;
    if a == [] {
      assert a + b == b;
    } else {
      assert (a + b)[1..] == a[1..] + b;
      TableAppend(a[1..], b, start + RoundTo(|a[0]|, 512));
    }
  }

  lemma Parted<T>(parts: seq<T>, i: nat)
    requires i < |parts|
    ensures parts == parts[..i] + [parts[i]] + parts[i + 1..]
  {
  }

  /** Part `i` lies in the body behind the parts before it. */
  lemma BodyAt(parts: seq<seq<Byte>>, i: nat)
    requires i < |parts|
    ensures Body(parts) == Body(parts[..i]) + Padded(parts[i]) + Body(parts[i + 1..])
  {
    hide Padded, Body;
    var before, behind := parts[..i], parts[i + 1..];
    Parted(parts, i);
    BodyAppend(before + [parts[i]], behind);
    BodySnoc(before, parts[i]);
  }

  lemma TableAt(parts: seq<seq<Byte>>, start: nat, i: nat)
    requires i < |parts| && Fits(parts, start)
    ensures var s := End(parts[..i], start);
            && Packs(s, RoundTo(|parts[i]|, 512))
            && Table(parts, start)[16 * i..16 * i + 16] == Entry(s, RoundTo(|parts[i]|, 512))
  {
    hide Packs, Entry, RoundTo, Table, Fits;
    assert parts == parts[..i + 1] + parts[i + 1..];
    assert parts[..i + 1] == parts[..i] + [parts[i]];
    TableAppend(parts[..i + 1], parts[i + 1..], start);
    Snoc(parts[..i], parts[i], start);
  }

  lemma EntryReads(start: nat, size: nat)
    requires Packs(start, size)
    ensures var e := Entry(start, size);
            e[4] == 0x83 && Unpack(e[8..12]) == start / 512 && Unpack(e[12..16]) == size / 512
  {
    hide Pack, Unpack;
    var e := Entry(start, size);
    UnpackPack(start / 512);
    UnpackPack(size / 512);
    assert e[8..12] == Pack(start / 512);
    assert e[12..16] == Pack(size / 512);
  }

  predicate Small(parts: seq<seq<Byte>>) {
    |parts| <= 4 && Fits(parts, DATA_OFFSET)
  }

  lemma ImageLength(parts: seq<seq<Byte>>)
    requires Small(parts)
    ensures |Image(parts)| == End(parts, DATA_OFFSET) && |Image(parts)| >= 512
  {
    hide Header, Body, End;
    EndIsBody(parts, DATA_OFFSET);
  }

  lemma EntryOfImage(parts: seq<seq<Byte>>, i: nat)
    requires Small(parts) && i < |parts|
    ensures |Image(parts)| >= 512
    ensures ReadEntry(Image(parts), i)
            == Extent(0x83, End(parts[..i], DATA_OFFSET) / 512, RoundTo(|parts[i]|, 512) / 512)
  {
    hide Table, Body, End, Entry, Fits, RoundTo, Packs;
    ImageLength(parts);
    TableAt(parts, DATA_OFFSET, i);
    EntryReads(End(parts[..i], DATA_OFFSET), RoundTo(|parts[i]|, 512));
    assert Image(parts)[446 + 16 * i..446 + 16 * i + 16] == Table(parts, DATA_OFFSET)[16 * i..16 * i + 16];
  }

  lemma DataOfImage(parts: seq<seq<Byte>>, i: nat)
    requires Small(parts) && i < |parts|
    ensures var s := End(parts[..i], DATA_OFFSET);
            && s + RoundTo(|parts[i]|, 512) <= |Image(parts)|
            && Image(parts)[s..s + RoundTo(|parts[i]|, 512)] == Padded(parts[i])
  {
    hide Table, Header, Body, End, Fits, RoundTo;
    BodyAt(parts, i);
    RoundedUp(|parts[i]|);
    EndIsBody(parts[..i], DATA_OFFSET);
    var head := Header(parts) + Zeros(DATA_OFFSET - 512);
    assert Image(parts) == head + Body(parts[..i]) + Padded(parts[i]) + Body(parts[i + 1..]);
  }

  /** Every part is found through its table entry, behind the part before it, and
      reads back followed by 1 to 512 zeros; the last one ends the file. */
  lemma PartsReadBack(parts: seq<seq<Byte>>, i: nat)
    requires Small(parts) && i < |parts|
    ensures |Image(parts)| >= 512
    ensures var image := Image(parts);
            var e := ReadEntry(image, i);
            var n := 512 * e.sectors;
            && e.kind == 0x83
            && 512 * (e.first + e.sectors) <= |image|
            && 1 <= n - |parts[i]| <= 512
            && image[512 * e.first..512 * (e.first + e.sectors)] == parts[i] + Zeros(n - |parts[i]|)
            && (i == 0 ==> 512 * e.first == 2097152)
            && (i + 1 < |parts| ==> ReadEntry(image, i + 1).first == e.first + e.sectors)
            && (i + 1 == |parts| ==> 512 * (e.first + e.sectors) == |image|)
  {
    hide Table, Header, Body, Fits, RoundTo, Image, End, ReadEntry;
    EntryOfImage(parts, i);
    DataOfImage(parts, i);
    RoundedUp(|parts[i]|);
    EndIsAligned(parts[..i], DATA_OFFSET);
    Snoc(parts[..i], parts[i], DATA_OFFSET);
    assert parts[..i + 1] == parts[..i] + [parts[i]];
    ImageLength(parts);
    if i + 1 < |parts| {
      EntryOfImage(parts, i + 1);
    } else {
      assert parts[..i + 1] == parts;
    }
    if i == 0 {
      EndOfNothing(DATA_OFFSET);
    }
  }

  lemma EndOfNothing(start: nat)
    ensures End([], start) == start
  {
  }

  /** The other entries are empty and the signature is in place. */
  lemma RestOfTable(parts: seq<seq<Byte>>)
    requires Small(parts)
    ensures |Image(parts)| >= 512
    ensures forall i :: |parts| <= i < 4 ==> ReadEntry(Image(parts), i) == Extent(0, 0, 0)
    ensures Image(parts)[510..512] == [0x55, 0xAA]
  {
    hide Table, Body, Fits, End;
    ImageLength(parts);
    UnpackPack(0);
    var image := Image(parts);
    forall i | |parts| <= i < 4 ensures ReadEntry(image, i) == Extent(0, 0, 0) {
      assert image[446 + 16 * i..446 + 16 * i + 16] == Zeros(16);
    }
  }

  // ----------------------------------------------------------------- exact limits

  /** The start and the size of part `i` fit into 32 bits. */
  predicate PartFits(parts: seq<seq<Byte>>, start: nat, i: nat)
    requires i < |parts|
  {
    End(parts[..i], start) / 512 < 0x1_0000_0000 && RoundTo(|parts[i]|, 512) / 512 < 0x1_0000_0000
  }

  lemma PartFitsNext(parts: seq<seq<Byte>>, start: nat, i: nat)
    requires i + 1 < |parts|
    ensures PartFits(parts, start, i + 1) <==> PartFits(parts[1..], start + RoundTo(|parts[0]|, 512), i)
  {
    hide RoundTo;
    assert parts[..i + 1][1..] == parts[1..][..i] && parts[..i + 1][0] == parts[0];
  }

  lemma FirstFits(parts: seq<seq<Byte>>, start: nat)
    requires parts != []
    ensures PartFits(parts, start, 0) <==> Packs(start, RoundTo(|parts[0]|, 512))
  {
    hide RoundTo;
    assert parts[..0] == [];
  }

  /** The image is refused exactly if some start or size needs more than 32 bits. */
  lemma {:induction false} FitsExactly(parts: seq<seq<Byte>>, start: nat)
    ensures Fits(parts, start) <==> forall i: nat | i < |parts| :: PartFits(parts, start, i)
  {
    hide RoundTo, Packs, PartFits;
    if parts != [] {
      var next, rest := start + RoundTo(|parts[0]|, 512), parts[1..];
      FitsExactly(rest, next);
      FirstFits(parts, start);
      forall i: nat | i < |rest| ensures PartFits(parts, start, i + 1) <==> PartFits(rest, next, i) {
        PartFitsNext(parts, start, i);
      }
      if Fits(parts, start) {
        forall i: nat | i < |parts| ensures PartFits(parts, start, i) {
          if i > 0 {
            assert PartFits(rest, next, i - 1);
            assert PartFits(parts, start, i - 1 + 1);
          }
        }
      }
      if forall i: nat | i < |parts| :: PartFits(parts, start, i) {
        forall i: nat | i < |rest| ensures PartFits(rest, next, i) {
          assert PartFits(parts, start, i + 1);
        }
      }
    }
  }

  /** A byte is skipped exactly if its block of 4096 bytes, or what there is of it, is
      zero. */
  lemma {:induction false} SkippedExactly(data: seq<Byte>, k: nat)
    requires k < |data|
    ensures Skipped(data, k)
            <==> forall i: nat | k / 4096 * 4096 <= i < k / 4096 * 4096 + 4096 && i < |data| :: data[i] == 0
    decreases |data|
  {
    var block := FirstBlock(data);
    if k < |block| {
      InFirstBlock(k);
      assert forall i: nat | i < |block| :: block[i] == data[i];
    } else {
      var rest := data[4096..];
      SkippedExactly(rest, k - 4096);
      NextBlock(k);
      var b := k / 4096 * 4096;
      assert forall i: nat | b - 4096 <= i < b && i < |rest| :: rest[i] == data[i + 4096];
      assert forall i: nat | b <= i < b + 4096 && i < |data| :: data[i] == rest[i - 4096];
    }
  }

  lemma InFirstBlock(k: nat)
    requires k < 4096
    ensures k / 4096 * 4096 == 0
  {
  }

  lemma NextBlock(k: nat)
    requires k >= 4096
    ensures (k - 4096) / 4096 * 4096 == k / 4096 * 4096 - 4096
  {
  }
}
