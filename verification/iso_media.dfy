/**
 The ISO base media file reader of src/utils/exif.ts: a scanner of top-level boxes (section 4.2 of
 ISO/IEC 14496-12), a reader of the movie header's creation time (section 8.2.2), and the partial
 reads built on them. The printer at the end of the module is the scanner's partner.

 A 64-bit size of zero leaves the position unchanged, so the loops of the source never end on it;
 the functions answer `Endless` there, and ScanEndsExactlyWhen says that this is what it means.
*/
module IsoMedia {
  import opened Wrappers

  type Byte = b: int | 0 <= b < 256

  type Bytes = seq<Byte>

  const MAC_EPOCH_OFFSET := 2082844800
  const LATEST_UNIX_SECONDS := 4102444800
  const ATOM_SCAN_BYTES := 32768
  const MAX_MOOV_SIZE := 2 * 1024 * 1024

  /** A box type: four characters of seven bits. */
  datatype FourCC = FourCC(a: Byte, b: Byte, c: Byte, d: Byte) {
    predicate Ascii() {
      a < 128 && b < 128 && c < 128 && d < 128
    }

    function Bytes(): Bytes {
      [a, b, c, d]
    }
  }

  const MOOV := FourCC(0x6d, 0x6f, 0x6f, 0x76)
  const MDAT := FourCC(0x6d, 0x64, 0x61, 0x74)
  const MVHD := FourCC(0x6d, 0x76, 0x68, 0x64)

  /** What toString('ascii') gives for the four bytes. */
  function Text(kind: FourCC): string {
    [kind.a as char, kind.b as char, kind.c as char, kind.d as char]
  }

  lemma KindsRead()
    ensures Text(MOOV) == "moov" && Text(MDAT) == "mdat" && Text(MVHD) == "mvhd"
  {
  }

  // --------------------------------------------------------------- reading bytes

  function U32(buf: Bytes, pos: nat): (n: nat)
    requires pos + 4 <= |buf|
    ensures n < 0x1_0000_0000
  {
    var b0: int, b1: int, b2: int, b3: int := buf[pos], buf[pos + 1], buf[pos + 2], buf[pos + 3];
    b0 * 0x100_0000 + b1 * 0x1_0000 + b2 * 0x100 + b3
  }

  function U64(buf: Bytes, pos: nat): nat
    requires pos + 8 <= |buf|
  {
    U32(buf, pos) * 0x1_0000_0000 + U32(buf, pos + 4)
  }

  /** toString('ascii') drops the top bit of every byte. */
  function Kind(buf: Bytes, pos: nat): FourCC
    requires pos + 4 <= |buf|
  {
    FourCC(buf[pos] % 128, buf[pos + 1] % 128, buf[pos + 2] % 128, buf[pos + 3] % 128)
  }

  lemma KindDropsTopBits(buf: Bytes, pos: nat)
    requires pos + 4 <= |buf|
    ensures forall i :: 0 <= i < 4 ==>
              Kind(buf, pos).Bytes()[i] == if buf[pos + i] < 128 then buf[pos + i] else buf[pos + i] - 128
  {
  }

  /** The size field of the box at `pos`, widened when it says so and the buffer has the bytes. */
  function SizeAt(buf: Bytes, pos: nat): nat
    requires pos + 8 <= |buf|
  {
    if U32(buf, pos) == 1 && pos + 16 <= |buf| then U64(buf, pos + 8) else U32(buf, pos)
  }

  predicate HeaderAt(buf: Bytes, pos: nat) {
    pos + 8 <= |buf| && U32(buf, pos) != 0
  }

  // ---------------------------------------------------------------- scanning boxes

  datatype Atom = Atom(kind: FourCC, offset: nat, size: nat)

  datatype Scanned = Atoms(list: seq<Atom>) | Endless

  function Prepend(atoms: seq<Atom>, r: Scanned): Scanned {
    match r
    case Endless => Endless
    case Atoms(rest) => Atoms(atoms + rest)
  }

  function Scan(buf: Bytes, pos: nat): Scanned
    decreases |buf| - pos
  {
    if !HeaderAt(buf, pos) then Atoms([])
    else
      var size := SizeAt(buf, pos);
      if size == 0 then Endless
      else Prepend([Atom(Kind(buf, pos + 4), pos, size)], Scan(buf, pos + size))
  }

  lemma PrependTwice(atoms: seq<Atom>, a: Atom, r: Scanned)
    ensures Prepend(atoms, Prepend([a], r)) == Prepend(atoms + [a], r)
  {
    if r.Atoms? {
      assert atoms + ([a] + r.list) == atoms + [a] + r.list;
    }
  }

  /** One iteration of the loop. */
  lemma ScanStep(buf: Bytes, pos: nat, atoms: seq<Atom>)
    requires HeaderAt(buf, pos)
    ensures SizeAt(buf, pos) == 0 ==> Prepend(atoms, Scan(buf, pos)) == Endless
    ensures SizeAt(buf, pos) > 0 ==>
              Prepend(atoms, Scan(buf, pos))
              == Prepend(atoms + [Atom(Kind(buf, pos + 4), pos, SizeAt(buf, pos))], Scan(buf, pos + SizeAt(buf, pos)))
  {
    PrependTwice(atoms, Atom(Kind(buf, pos + 4), pos, SizeAt(buf, pos)), Scan(buf, pos + SizeAt(buf, pos)));
  }

  /** The size field, read as the source does. */
  method ReadSize(buf: Bytes, pos: nat) returns (size: nat)
    requires pos + 8 <= |buf| && U32(buf, pos) != 0
    ensures size == SizeAt(buf, pos)
  {
    size := U32(buf, pos);
    if size == 1 && pos + 16 <= |buf| {
      var hi := U32(buf, pos + 8);
      var lo := U32(buf, pos + 12);
      size := hi * 0x1_0000_0000 + lo;
    }
  }

  /** scanAtoms, with the endless case cut short. */
  method ScanAtoms(buf: Bytes) returns (r: Scanned)
    ensures r == Scan(buf, 0)
  {
    var atoms: seq<Atom> := [];
    var pos := 0;
    assert Prepend([], Scan(buf, 0)) == Scan(buf, 0);
    while pos + 8 <= |buf|
      invariant Scan(buf, 0) == Prepend(atoms, Scan(buf, pos))
      decreases |buf| - pos
    {
      if U32(buf, pos) == 0 {
        break;
      }
      ScanStep(buf, pos, atoms);
      var size := ReadSize(buf, pos);
      if size == 0 {
        return Endless;
      }
      atoms := atoms + [Atom(Kind(buf, pos + 4), pos, size)];
      pos := pos + size;
    }
    assert Scan(buf, pos) == Atoms([]);
    r := Atoms(atoms);
  }

  /** The position of the loop after n iterations, if it has not ended before. */
  function PosAfter(buf: Bytes, start: nat, n: nat): Option<nat> {
    if n == 0 then Some(start)
    else match PosAfter(buf, start, n - 1)
      case None => None
      case Some(p) => if HeaderAt(buf, p) then Some(p + SizeAt(buf, p)) else None
  }

  lemma {:induction false} PosAfterShift(buf: Bytes, start: nat, n: nat)
    requires HeaderAt(buf, start)
    ensures PosAfter(buf, start, n + 1) == PosAfter(buf, start + SizeAt(buf, start), n)
  {
    if n > 0 {
      PosAfterShift(buf, start, n - 1);
    }
  }

  lemma {:induction false} StuckForever(buf: Bytes, start: nat, n: nat)
    requires HeaderAt(buf, start) && SizeAt(buf, start) == 0
    ensures PosAfter(buf, start, n) == Some(start)
  {
    if n > 0 {
      StuckForever(buf, start, n - 1);
    }
  }

  lemma {:induction false} EndsFrom(buf: Bytes, pos: nat) returns (n: nat)
    requires Scan(buf, pos).Atoms?
    ensures PosAfter(buf, pos, n).None?
    decreases |buf| - pos
  {
    if !HeaderAt(buf, pos) {
      n := 1;
      assert PosAfter(buf, pos, 0) == Some(pos);
    } else {
      var m := EndsFrom(buf, pos + SizeAt(buf, pos));
      PosAfterShift(buf, pos, m);
      n := m + 1;
    }
  }

  lemma {:induction false} RunsForever(buf: Bytes, pos: nat, n: nat)
    requires Scan(buf, pos).Endless?
    ensures PosAfter(buf, pos, n).Some?
    decreases n
  {
    if SizeAt(buf, pos) == 0 {
      StuckForever(buf, pos, n);
    } else if n > 0 {
      RunsForever(buf, pos + SizeAt(buf, pos), n - 1);
      PosAfterShift(buf, pos, n - 1);
    }
  }

  /** The scanning loop ends, on arbitrary bytes, exactly when it does not reach a 64-bit size of
      zero; Scan answers Endless exactly in the other case. */
  lemma ScanEndsExactlyWhen(buf: Bytes)
    ensures Scan(buf, 0).Atoms? <==> exists n :: PosAfter(buf, 0, n).None?
    ensures Scan(buf, 0).Endless? <==>
              exists n :: PosAfter(buf, 0, n).Some? && HeaderAt(buf, PosAfter(buf, 0, n).value)
                          && SizeAt(buf, PosAfter(buf, 0, n).value) == 0
  {
    if Scan(buf, 0).Atoms? {
      var n := EndsFrom(buf, 0);
      forall m | PosAfter(buf, 0, m).Some? && HeaderAt(buf, PosAfter(buf, 0, m).value)
        ensures SizeAt(buf, PosAfter(buf, 0, m).value) != 0
      {
        NoStuckPosition(buf, 0, m);
      }
    } else {
      forall n
        ensures PosAfter(buf, 0, n).Some?
      {
        RunsForever(buf, 0, n);
      }
      var n := ReachesZero(buf, 0);
    }
  }

  lemma {:induction false} NoStuckPosition(buf: Bytes, pos: nat, m: nat)
    requires Scan(buf, pos).Atoms? && PosAfter(buf, pos, m).Some? && HeaderAt(buf, PosAfter(buf, pos, m).value)
    ensures SizeAt(buf, PosAfter(buf, pos, m).value) != 0
    decreases m
  {
    if m > 0 {
      FirstStepHappened(buf, pos, m);
      PosAfterShift(buf, pos, m - 1);
      NoStuckPosition(buf, pos + SizeAt(buf, pos), m - 1);
    }
  }

  lemma {:induction false} FirstStepHappened(buf: Bytes, pos: nat, m: nat)
    requires m > 0 && PosAfter(buf, pos, m).Some?
    ensures HeaderAt(buf, pos)
  {
    if m == 1 {
      assert PosAfter(buf, pos, 0) == Some(pos);
    } else {
      FirstStepHappened(buf, pos, m - 1);
    }
  }

  lemma {:induction false} ReachesZero(buf: Bytes, pos: nat) returns (n: nat)
    requires Scan(buf, pos).Endless?
    ensures PosAfter(buf, pos, n).Some? && HeaderAt(buf, PosAfter(buf, pos, n).value)
    ensures SizeAt(buf, PosAfter(buf, pos, n).value) == 0
    decreases |buf| - pos
  {
    if SizeAt(buf, pos) == 0 {
      n := 0;
    } else {
      var m := ReachesZero(buf, pos + SizeAt(buf, pos));
      PosAfterShift(buf, pos, m);
      n := m + 1;
    }
  }

  // ------------------------------------------------------------- the movie header

  datatype Date = Found(unixSeconds: int) | NoDate | Loops

  function DateOf(creationTime: nat): Date {
    if creationTime == 0 then NoDate
    else
      var unixSeconds := creationTime - MAC_EPOCH_OFFSET;
      if unixSeconds < 0 || unixSeconds > LATEST_UNIX_SECONDS then NoDate else Found(unixSeconds)
  }

  function DecodeMvhd(buf: Bytes, dataStart: nat): Date {
    if dataStart + 4 > |buf| then NoDate
    else if buf[dataStart] == 0 then
      if dataStart + 8 > |buf| then NoDate else DateOf(U32(buf, dataStart + 4))
    else
      if dataStart + 12 > |buf| then NoDate else DateOf(U64(buf, dataStart + 4))
  }

  function ParseMvhd(buf: Bytes, pos: nat): Date
    decreases |buf| - pos
  {
    if !HeaderAt(buf, pos) then NoDate
    else if Kind(buf, pos + 4) == MVHD then DecodeMvhd(buf, pos + 8)
    else if SizeAt(buf, pos) == 0 then Loops
    else ParseMvhd(buf, pos + SizeAt(buf, pos))
  }

  /** parseMvhdCreationTime, with the endless case cut short. */
  method ParseMvhdCreationTime(moovBuf: Bytes) returns (d: Date)
    ensures d == ParseMvhd(moovBuf, 8)
  {
    var pos := 8;
    while pos + 8 <= |moovBuf|
      invariant ParseMvhd(moovBuf, 8) == ParseMvhd(moovBuf, pos)
      decreases |moovBuf| - pos
    {
      if U32(moovBuf, pos) == 0 {
        break;
      }
      var atomSize := ReadSize(moovBuf, pos);
      if Kind(moovBuf, pos + 4) == MVHD {
        d := ReadCreationTime(moovBuf, pos + 8);
        return;
      }
      if atomSize == 0 {
        return Loops;
      }
      pos := pos + atomSize;
    }
    d := NoDate;
  }

  /** The body of the mvhd branch. */
  method ReadCreationTime(moovBuf: Bytes, dataStart: nat) returns (d: Date)
    ensures d == DecodeMvhd(moovBuf, dataStart)
  {
    if dataStart + 4 > |moovBuf| {
      return NoDate;
    }
    var creationTime: nat;
    if moovBuf[dataStart] == 0 {
      if dataStart + 8 > |moovBuf| {
        return NoDate;
      }
      creationTime := U32(moovBuf, dataStart + 4);
    } else {
      if dataStart + 12 > |moovBuf| {
        return NoDate;
      }
      var hi := U32(moovBuf, dataStart + 4);
      var lo := U32(moovBuf, dataStart + 8);
      creationTime := hi * 0x1_0000_0000 + lo;
    }
    if creationTime == 0 {
      return NoDate;
    }
    var unixSeconds := creationTime - MAC_EPOCH_OFFSET;
    if unixSeconds < 0 || unixSeconds > LATEST_UNIX_SECONDS {
      return NoDate;
    }
    return Found(unixSeconds);
  }

  // --------------------------------------------------------------- partial reads

  function FindKind(atoms: seq<Atom>, kind: FourCC): Option<Atom> {
    if atoms == [] then None
    else if atoms[0].kind == kind then Some(atoms[0])
    else FindKind(atoms[1..], kind)
  }

  function Min(a: int, b: int): int {
    if a <= b then a else b
  }

  /** What is decided from a buffer: a date, or where the moov box should be fetched. */
  datatype Extract = Extract(date: Date, moovOffset: Option<nat>)

  function ExtractFromBuffer(buf: Bytes): Extract {
    if |buf| < 8 then Extract(NoDate, None)
    else match Scan(buf, 0)
      case Endless => Extract(Loops, None)
      case Atoms(atoms) => ExtractFromAtoms(buf, atoms)
  }

  function ExtractFromAtoms(buf: Bytes, atoms: seq<Atom>): Extract {
    match FindKind(atoms, MOOV)
    case Some(moov) =>
      var moovEnd := moov.offset + moov.size;
      if moovEnd <= |buf| then Extract(ParseMvhd(buf[moov.offset..moovEnd], 8), None)
      else Extract(NoDate, Some(moov.offset))
    case None =>
      match FindKind(atoms, MDAT)
      case Some(mdat) => Extract(NoDate, Some(mdat.offset + mdat.size))
      case None => Extract(NoDate, None)
  }

  function ExtractFromMoov(buf: Bytes): Date {
    if |buf| >= 8 && Kind(buf, 4) == MOOV then ParseMvhd(buf, 8) else NoDate
  }

  /** The two-step protocol of the callers: parse the first n bytes; if they only tell where the moov
      box is, fetch up to `fetch` bytes from there and parse those. */
  function TwoStepDate(file: Bytes, n: nat, fetch: nat): Date
    requires n <= |file|
  {
    FollowUp(file, ExtractFromBuffer(file[..n]), fetch)
  }

  function FollowUp(file: Bytes, r: Extract, fetch: nat): Date {
    if !r.date.NoDate? || r.moovOffset.None? || r.moovOffset.value >= |file| then r.date
    else ExtractFromMoov(file[r.moovOffset.value..Min(r.moovOffset.value + fetch, |file|)])
  }

  /** extractVideoCreationDate on the bytes of the file. */
  function DiskDate(file: Bytes): Date {
    if |file| < 8 then NoDate
    else match Scan(file[..Min(ATOM_SCAN_BYTES, |file|)], 0)
      case Endless => Loops
      case Atoms(atoms) => DiskDateFromAtoms(file, atoms)
  }

  function DiskDateFromAtoms(file: Bytes, atoms: seq<Atom>): Date {
    match FindKind(atoms, MOOV)
    case Some(moov) =>
      var moovEnd := Min(moov.offset + moov.size, |file|);
      if moovEnd - moov.offset > MAX_MOOV_SIZE || moovEnd < moov.offset then NoDate
      else ParseMvhd(file[moov.offset..moovEnd], 8)
    case None =>
      match FindKind(atoms, MDAT)
      case None => NoDate
      case Some(mdat) =>
        var moovOffset := mdat.offset + mdat.size;
        if moovOffset >= |file| then NoDate
        else ExtractFromMoov(file[moovOffset..moovOffset + Min(MAX_MOOV_SIZE, |file| - moovOffset)])
  }

  /** The reference: scan the whole file and parse its first moov box. */
  function WholeFileDate(file: Bytes): Date {
    match Scan(file, 0)
    case Endless => Loops
    case Atoms(atoms) =>
      match FindKind(atoms, MOOV)
      case None => NoDate
      case Some(moov) => ParseMvhd(MoovBytes(file, moov), 8)
  }

  function MoovBytes(file: Bytes, moov: Atom): Bytes {
    if moov.offset <= |file| then file[moov.offset..Min(moov.offset + moov.size, |file|)] else []
  }

  /** The atoms whose 8-byte header lies in the first n bytes. Offsets grow, so it is a prefix. */
  function Within(atoms: seq<Atom>, n: nat): seq<Atom> {
    if atoms == [] || atoms[0].offset + 8 > n then [] else [atoms[0]] + Within(atoms[1..], n)
  }

  /** No 64-bit header is cut by the end of the first n bytes. */
  predicate NoHeaderCut(file: Bytes, atoms: seq<Atom>, n: nat) {
    forall i :: 0 <= i < |atoms| && atoms[i].offset + 8 <= n && n < atoms[i].offset + 16 <= |file| ==>
      U32(file, atoms[i].offset) != 1
  }

  /** Under that condition the buffer shows the boxes of the file, as far as it reaches. */
  lemma {:induction false} ScanOfPrefix(file: Bytes, n: nat, pos: nat)
    requires n <= |file|
    requires Scan(file, pos).Atoms? && NoHeaderCut(file, Scan(file, pos).list, n)
    ensures Scan(file[..n], pos) == Atoms(Within(Scan(file, pos).list, n))
    decreases |file| - pos
  {
    var buf := file[..n];
    if HeaderAt(file, pos) {
      var size, list := SizeAt(file, pos), Scan(file, pos).list;
      assert list[0] == Atom(Kind(file, pos + 4), pos, size);
      assert list[1..] == Scan(file, pos + size).list;
      if pos + 8 <= n {
        assert SizeAt(buf, pos) == size;
        assert forall i :: 0 <= i < |list[1..]| ==> list[1..][i] == list[i + 1];
        ScanOfPrefix(file, n, pos + size);
      }
    }
  }

  lemma {:induction false} ScanOffsets(buf: Bytes, pos: nat)
    requires Scan(buf, pos).Atoms?
    ensures forall i :: 0 <= i < |Scan(buf, pos).list| ==>
              pos <= Scan(buf, pos).list[i].offset && Scan(buf, pos).list[i].offset + 8 <= |buf|
    ensures forall i, j :: 0 <= i < j < |Scan(buf, pos).list| ==>
              Scan(buf, pos).list[i].offset + Scan(buf, pos).list[i].size <= Scan(buf, pos).list[j].offset
    ensures forall i :: 0 <= i < |Scan(buf, pos).list| ==>
              && Scan(buf, pos).list[i].kind == Kind(buf, Scan(buf, pos).list[i].offset + 4)
              && Scan(buf, pos).list[i].size > 0
    decreases |buf| - pos
  {
    if HeaderAt(buf, pos) {
      ScanOffsets(buf, pos + SizeAt(buf, pos));
    }
  }

  lemma {:induction false} FindMember(atoms: seq<Atom>, kind: FourCC)
    ensures FindKind(atoms, kind).Some? ==>
              FindKind(atoms, kind).value in atoms && FindKind(atoms, kind).value.kind == kind
  {
    if atoms != [] {
      FindMember(atoms[1..], kind);
    }
  }

  /** Looking in the prefix finds what looking in the whole list finds, if that lies in the prefix. */
  lemma {:induction false} FindWithin(atoms: seq<Atom>, kind: FourCC, n: nat)
    requires forall i, j :: 0 <= i < j < |atoms| ==> atoms[i].offset <= atoms[j].offset
    ensures FindKind(Within(atoms, n), kind) ==
            match FindKind(atoms, kind)
            case None => None
            case Some(a) => if a.offset + 8 <= n then Some(a) else None
  {
    FindMember(atoms, kind);
    if atoms != [] && atoms[0].offset + 8 <= n {
      assert ([atoms[0]] + Within(atoms[1..], n))[1..] == Within(atoms[1..], n);
      FindWithin(atoms[1..], kind, n);
    }
  }

  /** Where the reader meets the movie header. */
  function MvhdAt(buf: Bytes, pos: nat): Option<nat>
    decreases |buf| - pos
  {
    if !HeaderAt(buf, pos) then None
    else if Kind(buf, pos + 4) == MVHD then Some(pos)
    else if SizeAt(buf, pos) == 0 then None
    else MvhdAt(buf, pos + SizeAt(buf, pos))
  }

  lemma {:induction false} MvhdAtBounds(buf: Bytes, pos: nat)
    requires MvhdAt(buf, pos).Some?
    ensures pos <= MvhdAt(buf, pos).value && MvhdAt(buf, pos).value + 8 <= |buf|
    decreases |buf| - pos
  {
    if Kind(buf, pos + 4) != MVHD {
      MvhdAtBounds(buf, pos + SizeAt(buf, pos));
    }
  }

  /** The movie header, with its creation time, lies in the first n bytes of `moov`. */
  predicate MvhdInside(moov: Bytes, n: nat) {
    MvhdAt(moov, 8).Some? && MvhdAt(moov, 8).value + 20 <= n
  }

  predicate Agree(a: Bytes, b: Bytes, n: nat) {
    n <= |a| && n <= |b| && forall i :: 0 <= i < n ==> a[i] == b[i]
  }

  lemma SameHeader(a: Bytes, b: Bytes, n: nat, pos: nat)
    requires Agree(a, b, n) && pos + 16 <= n
    ensures HeaderAt(a, pos) == HeaderAt(b, pos)
    ensures Kind(a, pos + 4) == Kind(b, pos + 4) && SizeAt(a, pos) == SizeAt(b, pos)
  {
  }

  lemma SameMvhd(a: Bytes, b: Bytes, n: nat, pos: nat)
    requires Agree(a, b, n) && pos + 20 <= n
    ensures DecodeMvhd(a, pos + 8) == DecodeMvhd(b, pos + 8)
  {
    assert U32(a, pos + 12) == U32(b, pos + 12) && U32(a, pos + 16) == U32(b, pos + 16);
  }

  /** Two buffers that agree up to there give the same date, whatever follows or is missing. */
  lemma {:induction false} SameUpToMvhd(a: Bytes, b: Bytes, n: nat, pos: nat)
    requires Agree(a, b, n)
    requires MvhdAt(a, pos).Some? && MvhdAt(a, pos).value + 20 <= n
    ensures ParseMvhd(b, pos) == ParseMvhd(a, pos)
    decreases |a| - pos
  {
    MvhdAtBounds(a, pos);
    SameHeader(a, b, n, pos);
    if Kind(a, pos + 4) != MVHD {
      SameUpToMvhd(a, b, n, pos + SizeAt(a, pos));
    } else {
      SameMvhd(a, b, n, pos);
    }
  }

  /** The file has a moov box that a first read of n bytes can locate: it starts in the buffer, or
      directly follows the first mdat box whose header is in the buffer. */
  predicate Locatable(file: Bytes, n: nat) {
    && Scan(file, 0).Atoms?
    && var atoms := Scan(file, 0).list;
       && NoHeaderCut(file, atoms, n)
       && FindKind(atoms, MOOV).Some?
       && var moov := FindKind(atoms, MOOV).value;
          || moov.offset + 8 <= n
          || (FindKind(atoms, MDAT).Some?
              && FindKind(atoms, MDAT).value.offset + 8 <= n
              && FindKind(atoms, MDAT).value.offset + FindKind(atoms, MDAT).value.size == moov.offset)
  }

  function MoovOf(file: Bytes): Bytes
    requires Scan(file, 0).Atoms? && FindKind(Scan(file, 0).list, MOOV).Some?
  {
    MoovBytes(file, FindKind(Scan(file, 0).list, MOOV).value)
  }

  /** Fetching from the right offset gives the date of the moov box, provided the header is there. */
  lemma FetchedMoov(file: Bytes, moov: Atom, stop: nat, n: nat)
    requires moov.offset <= stop <= |file|
    requires moov.offset + 8 <= |file| && Kind(file, moov.offset + 4) == MOOV
    requires MvhdInside(MoovBytes(file, moov), n) && n <= |MoovBytes(file, moov)| && n <= stop - moov.offset
    ensures ExtractFromMoov(file[moov.offset..stop]) == ParseMvhd(MoovBytes(file, moov), 8)
  {
    var a, b := MoovBytes(file, moov), file[moov.offset..stop];
    assert Agree(a, b, n);
    MvhdAtBounds(a, 8);
    SameUpToMvhd(a, b, n, 8);
  }

  /** What scanning the first n bytes finds for a locatable moov box. */
  lemma LocatedInPrefix(file: Bytes, n: nat)
    requires 8 <= n <= |file| && Locatable(file, n)
    ensures Scan(file[..n], 0).Atoms?
    ensures var moov, seen := FindKind(Scan(file, 0).list, MOOV).value, Scan(file[..n], 0).list;
            if moov.offset + 8 <= n then FindKind(seen, MOOV) == Some(moov)
            else
              && FindKind(seen, MOOV) == None
              && FindKind(seen, MDAT).Some?
              && FindKind(seen, MDAT).value.offset + FindKind(seen, MDAT).value.size == moov.offset
  {
    var atoms := Scan(file, 0).list;
    ScanOfPrefix(file, n, 0);
    ScanOffsets(file, 0);
    FindWithin(atoms, MOOV, n);
    FindWithin(atoms, MDAT, n);
  }

  lemma ExtractWithMoov(file: Bytes, n: nat, seen: seq<Atom>, moov: Atom)
    requires n <= |file| && FindKind(seen, MOOV) == Some(moov) && moov.offset + moov.size <= n
    ensures ExtractFromAtoms(file[..n], seen) == Extract(ParseMvhd(MoovBytes(file, moov), 8), None)
  {
    assert file[..n][moov.offset..moov.offset + moov.size] == MoovBytes(file, moov);
  }

  lemma FirstReadInside(file: Bytes, n: nat)
    requires 8 <= n <= |file| && Locatable(file, n)
    requires var moov := FindKind(Scan(file, 0).list, MOOV).value; moov.offset + 8 <= n && moov.offset + moov.size <= n
    ensures ExtractFromBuffer(file[..n]) == Extract(ParseMvhd(MoovOf(file), 8), None)
  {
    LocatedInPrefix(file, n);
    ExtractWithMoov(file, n, Scan(file[..n], 0).list, FindKind(Scan(file, 0).list, MOOV).value);
  }

  lemma FirstReadBeyond(file: Bytes, n: nat)
    requires 8 <= n <= |file| && Locatable(file, n)
    requires var moov := FindKind(Scan(file, 0).list, MOOV).value;
             !(moov.offset + 8 <= n && moov.offset + moov.size <= n)
    ensures ExtractFromBuffer(file[..n]) == Extract(NoDate, Some(FindKind(Scan(file, 0).list, MOOV).value.offset))
  {
    LocatedInPrefix(file, n);
  }

  lemma MoovHeader(file: Bytes)
    requires Scan(file, 0).Atoms? && FindKind(Scan(file, 0).list, MOOV).Some?
    ensures var moov := FindKind(Scan(file, 0).list, MOOV).value;
            moov.offset + 8 <= |file| && Kind(file, moov.offset + 4) == MOOV
  {
    ScanOffsets(file, 0);
    FindMember(Scan(file, 0).list, MOOV);
  }

  lemma FollowUpFetches(file: Bytes, moov: Atom, fetch: nat)
    requires moov.offset + 8 <= |file| && Kind(file, moov.offset + 4) == MOOV
    requires MvhdInside(MoovBytes(file, moov), Min(fetch, |MoovBytes(file, moov)|))
    ensures FollowUp(file, Extract(NoDate, Some(moov.offset)), fetch) == ParseMvhd(MoovBytes(file, moov), 8)
  {
    FetchedMoov(file, moov, Min(moov.offset + fetch, |file|), Min(fetch, |MoovBytes(file, moov)|));
  }

  /** A partial read refines a whole-file read: the first n bytes and one fetch at the offset they
      give yield the date that scanning every top-level box of the file yields. */
  lemma PartialReadRefinesWholeFile(file: Bytes, n: nat, fetch: nat)
    requires 8 <= n <= |file| && Locatable(file, n)
    requires var moov := FindKind(Scan(file, 0).list, MOOV).value;
             || (moov.offset + 8 <= n && moov.offset + moov.size <= n)
             || MvhdInside(MoovOf(file), Min(fetch, |MoovOf(file)|))
    ensures TwoStepDate(file, n, fetch) == WholeFileDate(file)
  {
    var moov := FindKind(Scan(file, 0).list, MOOV).value;
    WholeFileMoov(file);
    if moov.offset + 8 <= n && moov.offset + moov.size <= n {
      FirstReadInside(file, n);
    } else {
      MoovHeader(file);
      FirstReadBeyond(file, n);
      FollowUpFetches(file, moov, fetch);
    }
  }

  lemma DiskWithMoov(file: Bytes, seen: seq<Atom>, moov: Atom)
    requires FindKind(seen, MOOV) == Some(moov) && moov.offset <= |file| && |MoovBytes(file, moov)| <= MAX_MOOV_SIZE
    ensures DiskDateFromAtoms(file, seen) == ParseMvhd(MoovBytes(file, moov), 8)
  {
  }

  lemma DiskFetches(file: Bytes, seen: seq<Atom>, o: nat, stop: nat)
    requires FindKind(seen, MOOV) == None && FindKind(seen, MDAT).Some?
    requires FindKind(seen, MDAT).value.offset + FindKind(seen, MDAT).value.size == o < |file|
    requires stop == o + Min(MAX_MOOV_SIZE, |file| - o)
    ensures DiskDateFromAtoms(file, seen) == ExtractFromMoov(file[o..stop])
  {
  }

  lemma DiskWithMdat(file: Bytes, seen: seq<Atom>, moov: Atom)
    requires FindKind(seen, MOOV) == None && FindKind(seen, MDAT).Some?
    requires FindKind(seen, MDAT).value.offset + FindKind(seen, MDAT).value.size == moov.offset
    requires moov.offset + 8 <= |file| && Kind(file, moov.offset + 4) == MOOV
    requires MvhdInside(MoovBytes(file, moov), Min(MAX_MOOV_SIZE, |MoovBytes(file, moov)|))
    ensures DiskDateFromAtoms(file, seen) == ParseMvhd(MoovBytes(file, moov), 8)
  {
    var stop := moov.offset + Min(MAX_MOOV_SIZE, |file| - moov.offset);
    DiskFetches(file, seen, moov.offset, stop);
    var n := Min(MAX_MOOV_SIZE, |MoovBytes(file, moov)|);
    FetchedMoov(file, moov, stop, n);
  }

  /** The same for the reader that works from disk, with its scan of 32 KB and its bound of 2 MB. */
  lemma DiskReadRefinesWholeFile(file: Bytes)
    requires |file| >= 8 && Locatable(file, Min(32768, |file|))
    requires var moov := FindKind(Scan(file, 0).list, MOOV).value;
             if moov.offset + 8 <= Min(32768, |file|) then |MoovOf(file)| <= 2097152
             else MvhdInside(MoovOf(file), Min(2097152, |MoovOf(file)|))
    ensures DiskDate(file) == WholeFileDate(file)
  {
    var n := Min(32768, |file|);
    LocatedInPrefix(file, n);
    MoovHeader(file);
    WholeFileMoov(file);
    var seen, moov := Scan(file[..n], 0).list, FindKind(Scan(file, 0).list, MOOV).value;
    if moov.offset + 8 <= n {
      DiskWithMoov(file, seen, moov);
    } else {
      DiskWithMdat(file, seen, moov);
    }
  }

  /** A box of this kind has its header in the first n bytes. */
  predicate SeenIn(atoms: seq<Atom>, kind: FourCC, n: nat) {
    FindKind(atoms, kind).Some? && FindKind(atoms, kind).value.offset + 8 <= n
  }

  /** A moov box whose header is scanned is read if and only if it has at most 2 MB; where neither it nor
      an mdat box is seen in the first 32 KB, there is no date. */
  lemma DiskReadBounds(file: Bytes)
    requires |file| >= 8 && Scan(file, 0).Atoms?
    requires NoHeaderCut(file, Scan(file, 0).list, Min(32768, |file|))
    ensures SeenIn(Scan(file, 0).list, MOOV, Min(32768, |file|)) ==>
              DiskDate(file) == if |MoovOf(file)| <= 2097152 then WholeFileDate(file) else NoDate
    ensures !SeenIn(Scan(file, 0).list, MOOV, Min(32768, |file|))
            && !SeenIn(Scan(file, 0).list, MDAT, Min(32768, |file|))
            ==> DiskDate(file) == NoDate
  {
    var n, atoms := Min(32768, |file|), Scan(file, 0).list;
    ScanOfPrefix(file, n, 0);
    ScanOffsets(file, 0);
    FindWithin(atoms, MOOV, n);
    FindWithin(atoms, MDAT, n);
    if SeenIn(atoms, MOOV, n) {
      var moov := FindKind(atoms, MOOV).value;
      WholeFileMoov(file);
      DiskMoovBound(file, Scan(file[..n], 0).list, moov);
    }
  }

  lemma DiskMoovBound(file: Bytes, seen: seq<Atom>, moov: Atom)
    requires FindKind(seen, MOOV) == Some(moov) && moov.offset <= |file|
    ensures DiskDateFromAtoms(file, seen)
            == if |MoovBytes(file, moov)| <= 2097152 then ParseMvhd(MoovBytes(file, moov), 8) else NoDate
  {
  }

  lemma WholeFileMoov(file: Bytes)
    requires Scan(file, 0).Atoms? && FindKind(Scan(file, 0).list, MOOV).Some?
    ensures WholeFileDate(file) == ParseMvhd(MoovOf(file), 8)
  {
  }

  // ---------------------------------------------------------------- printing boxes

  function U32Bytes(n: nat): (bytes: Bytes)
    requires n < 0x1_0000_0000
    ensures |bytes| == 4
  {
    [n / 0x100_0000, n / 0x1_0000 % 256, n / 0x100 % 256, n % 256]
  }

  function U64Bytes(n: nat): (bytes: Bytes)
    requires n < 0x1_0000_0000_0000_0000
    ensures |bytes| == 8
  {
    U32Bytes(n / 0x1_0000_0000) + U32Bytes(n % 0x1_0000_0000)
  }

  /** A box to be written, with the 32-bit or the 64-bit form of its size. */
  datatype Box = Box(kind: FourCC, large: bool, body: Bytes) {
    function HeaderSize(): nat {
      if large then 16 else 8
    }

    function Size(): nat {
      HeaderSize() + |body|
    }

    predicate Valid() {
      && kind.Ascii()
      && Size() < if large then 0x1_0000_0000_0000_0000 else 0x1_0000_0000
    }

    function Header(): (bytes: Bytes)
      requires Valid()
      ensures |bytes| == HeaderSize()
    {
      if large then U32Bytes(1) + kind.Bytes() + U64Bytes(Size()) else U32Bytes(Size()) + kind.Bytes()
    }

    function Print(): (bytes: Bytes)
      requires Valid()
      ensures |bytes| == Size()
    {
      Header() + body
    }
  }

  predicate AllValid(boxes: seq<Box>) {
    boxes == [] || (boxes[0].Valid() && AllValid(boxes[1..]))
  }

  predicate NoneIs(boxes: seq<Box>, kind: FourCC) {
    boxes == [] || (boxes[0].kind != kind && NoneIs(boxes[1..], kind))
  }

  function PrintAll(boxes: seq<Box>): Bytes
    requires AllValid(boxes)
  {
    if boxes == [] then [] else boxes[0].Print() + PrintAll(boxes[1..])
  }

  /** The atoms of the boxes laid out one after the other from `offset`. */
  function Layout(boxes: seq<Box>, offset: nat): seq<Atom> {
    if boxes == [] then []
    else [Atom(boxes[0].kind, offset, boxes[0].Size())] + Layout(boxes[1..], offset + boxes[0].Size())
  }

  /** `bytes` stands in `buf` at `pos`. */
  predicate At(buf: Bytes, pos: nat, bytes: Bytes) {
    pos + |bytes| <= |buf| && forall i :: 0 <= i < |bytes| ==> buf[pos + i] == bytes[i]
  }

  lemma AtSplit(buf: Bytes, pos: nat, a: Bytes, b: Bytes)
    requires At(buf, pos, a + b)
    ensures At(buf, pos, a) && At(buf, pos + |a|, b)
  {
    assert forall i :: 0 <= i < |a| ==> (a + b)[i] == a[i];
    forall i | 0 <= i < |b|
      ensures buf[pos + |a| + i] == b[i]
    {
      assert (a + b)[|a| + i] == b[i];
    }
  }

  lemma U32RoundTrip(n: nat, buf: Bytes, pos: nat)
    requires n < 0x1_0000_0000 && At(buf, pos, U32Bytes(n))
    ensures U32(buf, pos) == n
  {
    var bytes := U32Bytes(n);
    assert bytes[0] == buf[pos] && bytes[1] == buf[pos + 1] && bytes[2] == buf[pos + 2] && bytes[3] == buf[pos + 3];
    assert n / 0x1_0000 == n / 0x100_0000 * 256 + n / 0x1_0000 % 256;
    assert n / 0x100 == n / 0x1_0000 * 256 + n / 0x100 % 256;
  }

  lemma U64RoundTrip(n: nat, buf: Bytes, pos: nat)
    requires n < 0x1_0000_0000_0000_0000 && At(buf, pos, U64Bytes(n))
    ensures U64(buf, pos) == n
  {
    AtSplit(buf, pos, U32Bytes(n / 0x1_0000_0000), U32Bytes(n % 0x1_0000_0000));
    U32RoundTrip(n / 0x1_0000_0000, buf, pos);
    U32RoundTrip(n % 0x1_0000_0000, buf, pos + 4);
  }

  lemma KindReads(kind: FourCC, buf: Bytes, pos: nat)
    requires kind.Ascii() && At(buf, pos, kind.Bytes())
    ensures Kind(buf, pos) == kind
  {
    var bytes := kind.Bytes();
    assert bytes[0] == buf[pos] && bytes[1] == buf[pos + 1] && bytes[2] == buf[pos + 2] && bytes[3] == buf[pos + 3];
  }

  /** The header of a printed box reads back, wherever the box stands. */
  lemma PrintedHeader(box: Box, buf: Bytes, pos: nat)
    requires box.Valid() && At(buf, pos, box.Print())
    ensures HeaderAt(buf, pos) && Kind(buf, pos + 4) == box.kind && SizeAt(buf, pos) == box.Size()
    ensures At(buf, pos + box.HeaderSize(), box.body)
  {
    AtSplit(buf, pos, box.Header(), box.body);
    if box.large {
      AtSplit(buf, pos, U32Bytes(1) + box.kind.Bytes(), U64Bytes(box.Size()));
      AtSplit(buf, pos, U32Bytes(1), box.kind.Bytes());
      U32RoundTrip(1, buf, pos);
      U64RoundTrip(box.Size(), buf, pos + 8);
    } else {
      AtSplit(buf, pos, U32Bytes(box.Size()), box.kind.Bytes());
      U32RoundTrip(box.Size(), buf, pos);
    }
    KindReads(box.kind, buf, pos + 4);
  }

  /** The first of some boxes laid out in a buffer, and the others behind it. */
  lemma FirstPrinted(boxes: seq<Box>, buf: Bytes, pos: nat)
    requires AllValid(boxes) && boxes != [] && At(buf, pos, PrintAll(boxes))
    ensures HeaderAt(buf, pos) && Kind(buf, pos + 4) == boxes[0].kind && SizeAt(buf, pos) == boxes[0].Size() > 0
    ensures AllValid(boxes[1..]) && At(buf, pos + boxes[0].Size(), PrintAll(boxes[1..]))
    ensures |PrintAll(boxes)| == boxes[0].Size() + |PrintAll(boxes[1..])|
  {
    AtSplit(buf, pos, boxes[0].Print(), PrintAll(boxes[1..]));
    PrintedHeader(boxes[0], buf, pos);
  }

  lemma ScanOne(buf: Bytes, pos: nat, kind: FourCC, size: nat)
    requires HeaderAt(buf, pos) && Kind(buf, pos + 4) == kind && SizeAt(buf, pos) == size > 0
    ensures Scan(buf, pos) == Prepend([Atom(kind, pos, size)], Scan(buf, pos + size))
  {
  }

  lemma {:induction false} ScanPrinted(buf: Bytes, pos: nat, boxes: seq<Box>)
    requires AllValid(boxes) && At(buf, pos, PrintAll(boxes)) && pos + |PrintAll(boxes)| == |buf|
    ensures Scan(buf, pos) == Atoms(Layout(boxes, pos))
    decreases |boxes|
  {
    if boxes != [] {
      FirstPrinted(boxes, buf, pos);
      ScanOne(buf, pos, boxes[0].kind, boxes[0].Size());
      ScanPrinted(buf, pos + boxes[0].Size(), boxes[1..]);
    }
  }

  /** Round trip: scanning the serialisation of any list of boxes, with sizes in either form, returns
      exactly their types, offsets and sizes. */
  lemma ScanOfPrintRoundTrip(boxes: seq<Box>)
    requires AllValid(boxes)
    ensures Scan(PrintAll(boxes), 0) == Atoms(Layout(boxes, 0))
  {
    ScanPrinted(PrintAll(boxes), 0, boxes);
  }

  /** Each atom starts where the one before ends, from `offset` to `stop`. */
  predicate Adjacent(atoms: seq<Atom>, offset: nat, stop: nat) {
    if atoms == [] then offset == stop
    else atoms[0].offset == offset && Adjacent(atoms[1..], offset + atoms[0].size, stop)
  }

  lemma {:induction false} LayoutAdjacent(boxes: seq<Box>, offset: nat)
    requires AllValid(boxes)
    ensures Adjacent(Layout(boxes, offset), offset, offset + |PrintAll(boxes)|)
  {
    if boxes != [] {
      LayoutAdjacent(boxes[1..], offset + boxes[0].Size());
    }
  }

  lemma {:induction false} LayoutKinds(boxes: seq<Box>, offset: nat)
    ensures var atoms := Layout(boxes, offset);
            && |atoms| == |boxes|
            && forall i :: 0 <= i < |atoms| ==> atoms[i].kind == boxes[i].kind && atoms[i].size == boxes[i].Size()
  {
    if boxes != [] {
      LayoutKinds(boxes[1..], offset + boxes[0].Size());
    }
  }

  lemma {:induction false} AdjacentTiles(atoms: seq<Atom>, offset: nat, stop: nat)
    requires Adjacent(atoms, offset, stop)
    ensures forall i :: 0 <= i < |atoms| - 1 ==> atoms[i].offset + atoms[i].size == atoms[i + 1].offset
    ensures atoms != [] ==> atoms[0].offset == offset && atoms[|atoms| - 1].offset + atoms[|atoms| - 1].size == stop
  {
    if atoms != [] {
      AdjacentTiles(atoms[1..], offset + atoms[0].size, stop);
    }
  }

  /** And these tile the buffer: each box starts where the one before ends, the last ends the buffer. */
  lemma LayoutTiles(boxes: seq<Box>, offset: nat)
    requires AllValid(boxes)
    ensures var atoms := Layout(boxes, offset);
            && |atoms| == |boxes|
            && (forall i :: 0 <= i < |atoms| ==> atoms[i].kind == boxes[i].kind && atoms[i].size == boxes[i].Size())
            && (forall i :: 0 <= i < |atoms| - 1 ==> atoms[i].offset + atoms[i].size == atoms[i + 1].offset)
            && (atoms != [] ==> atoms[0].offset == offset)
            && (atoms != [] ==> atoms[|atoms| - 1].offset + atoms[|atoms| - 1].size == offset + |PrintAll(boxes)|)
  {
    LayoutAdjacent(boxes, offset);
    LayoutKinds(boxes, offset);
    AdjacentTiles(Layout(boxes, offset), offset, offset + |PrintAll(boxes)|);
  }

  // ------------------------------------------------------ printing a movie header

  predicate TimeFits(version: Byte, creationTime: nat) {
    creationTime < if version == 0 then 0x1_0000_0000 else 0x1_0000_0000_0000_0000
  }

  function TimeBytes(version: Byte, creationTime: nat): Bytes
    requires TimeFits(version, creationTime)
  {
    if version == 0 then U32Bytes(creationTime) else U64Bytes(creationTime)
  }

  /** A movie header with a 32-bit box header: version, flags, creation time in the version's width,
      and the rest. */
  function MvhdBox(version: Byte, flags: Bytes, creationTime: nat, rest: Bytes): Box
    requires |flags| == 3 && TimeFits(version, creationTime)
  {
    Box(MVHD, false, [version] + flags + TimeBytes(version, creationTime) + rest)
  }

  lemma DecodePrinted(version: Byte, flags: Bytes, creationTime: nat, rest: Bytes, buf: Bytes, dataStart: nat)
    requires |flags| == 3 && TimeFits(version, creationTime)
    requires At(buf, dataStart, MvhdBox(version, flags, creationTime, rest).body)
    ensures DecodeMvhd(buf, dataStart) == DateOf(creationTime)
  {
    AtSplit(buf, dataStart, [version] + flags + TimeBytes(version, creationTime), rest);
    AtSplit(buf, dataStart, [version] + flags, TimeBytes(version, creationTime));
    AtSplit(buf, dataStart, [version], flags);
    assert [version][0] == version;
    assert buf[dataStart + 0] == [version][0];
    if version == 0 {
      U32RoundTrip(creationTime, buf, dataStart + 4);
    } else {
      U64RoundTrip(creationTime, buf, dataStart + 4);
    }
  }

  lemma SkipOne(buf: Bytes, pos: nat, size: nat)
    requires HeaderAt(buf, pos) && Kind(buf, pos + 4) != MVHD && SizeAt(buf, pos) == size > 0
    ensures ParseMvhd(buf, pos) == ParseMvhd(buf, pos + size)
  {
  }

  lemma SkipFirst(buf: Bytes, pos: nat, children: seq<Box>)
    requires AllValid(children) && NoneIs(children, MVHD)
    requires At(buf, pos, PrintAll(children)) && children != []
    ensures ParseMvhd(buf, pos) == ParseMvhd(buf, pos + children[0].Size())
    ensures AllValid(children[1..]) && NoneIs(children[1..], MVHD)
    ensures At(buf, pos + children[0].Size(), PrintAll(children[1..]))
    ensures |PrintAll(children)| == children[0].Size() + |PrintAll(children[1..])|
  {
    FirstPrinted(children, buf, pos);
    SkipOne(buf, pos, children[0].Size());
  }

  /** The reader skips every child box that is not the movie header. */
  lemma {:induction false} SkipChildren(buf: Bytes, pos: nat, children: seq<Box>)
    requires AllValid(children) && NoneIs(children, MVHD)
    requires At(buf, pos, PrintAll(children))
    ensures ParseMvhd(buf, pos) == ParseMvhd(buf, pos + |PrintAll(children)|)
    decreases |children|
  {
    if children != [] {
      SkipFirst(buf, pos, children);
      SkipChildren(buf, pos + children[0].Size(), children[1..]);
    }
  }

  lemma HeaderDecodes(version: Byte, flags: Bytes, creationTime: nat, rest: Bytes, buf: Bytes, pos: nat)
    requires |flags| == 3 && TimeFits(version, creationTime)
    requires MvhdBox(version, flags, creationTime, rest).Valid()
    requires At(buf, pos, MvhdBox(version, flags, creationTime, rest).Print())
    ensures ParseMvhd(buf, pos) == DateOf(creationTime)
  {
    PrintedHeader(MvhdBox(version, flags, creationTime, rest), buf, pos);
    DecodePrinted(version, flags, creationTime, rest, buf, pos + 8);
  }

  lemma AtSplitThree(buf: Bytes, pos: nat, a: Bytes, b: Bytes, c: Bytes)
    requires At(buf, pos, a + b + c)
    ensures At(buf, pos, a) && At(buf, pos + |a|, b)
  {
    AtSplit(buf, pos, a + b, c);
    AtSplit(buf, pos, a, b);
  }

  lemma ChildrenThenBox(children: seq<Box>, box: Box, after: Bytes, buf: Bytes, pos: nat)
    requires AllValid(children) && NoneIs(children, MVHD) && box.Valid()
    requires At(buf, pos, PrintAll(children) + box.Print() + after)
    ensures ParseMvhd(buf, pos) == ParseMvhd(buf, pos + |PrintAll(children)|)
    ensures At(buf, pos + |PrintAll(children)|, box.Print())
  {
    AtSplitThree(buf, pos, PrintAll(children), box.Print(), after);
    SkipChildren(buf, pos, children);
  }

  lemma ChildrenThenHeader(children: seq<Box>, version: Byte, flags: Bytes, creationTime: nat, rest: Bytes,
                           after: Bytes, buf: Bytes, pos: nat)
    requires AllValid(children) && NoneIs(children, MVHD)
    requires |flags| == 3 && TimeFits(version, creationTime)
    requires MvhdBox(version, flags, creationTime, rest).Valid()
    requires At(buf, pos, PrintAll(children) + MvhdBox(version, flags, creationTime, rest).Print() + after)
    ensures ParseMvhd(buf, pos) == DateOf(creationTime)
  {
    ChildrenThenBox(children, MvhdBox(version, flags, creationTime, rest), after, buf, pos);
    HeaderDecodes(version, flags, creationTime, rest, buf, pos + |PrintAll(children)|);
  }

  lemma MovieHeaderDecodes(children: seq<Box>, version: Byte, flags: Bytes, creationTime: nat, rest: Bytes,
                           after: Bytes, moov: Box)
    requires AllValid(children) && NoneIs(children, MVHD)
    requires |flags| == 3 && TimeFits(version, creationTime)
    requires MvhdBox(version, flags, creationTime, rest).Valid()
    requires moov == Box(MOOV, false, PrintAll(children) + MvhdBox(version, flags, creationTime, rest).Print() + after)
    requires moov.Valid()
    ensures ExtractFromMoov(moov.Print()) == DateOf(creationTime)
  {
    PrintedHeader(moov, moov.Print(), 0);
    ChildrenThenHeader(children, version, flags, creationTime, rest, after, moov.Print(), 8);
  }

  /** Seconds since 1904 as seconds since 1970, for dates from 1970 to 2100. */
  predicate Dated(creationTime: nat, d: Date) {
    if 2082844800 <= creationTime <= 2082844800 + 4102444800 then d == Found(creationTime - 2082844800)
    else d == NoDate
  }

  lemma DateIsDated(creationTime: nat)
    ensures Dated(creationTime, DateOf(creationTime))
  {
  }

  /** A moov box with a 32-bit header, any children, then a movie header of version 0 or not with a
      32-bit header of its own, then anything: the creation time comes back exactly, minus the epoch
      offset, within the accepted range. */
  lemma MovieHeaderRoundTrip(children: seq<Box>, version: Byte, flags: Bytes, creationTime: nat, rest: Bytes,
                             after: Bytes, moov: Box)
    requires AllValid(children) && NoneIs(children, MVHD)
    requires |flags| == 3 && TimeFits(version, creationTime)
    requires MvhdBox(version, flags, creationTime, rest).Valid()
    requires moov == Box(MOOV, false, PrintAll(children) + MvhdBox(version, flags, creationTime, rest).Print() + after)
    requires moov.Valid()
    ensures Dated(creationTime, ExtractFromMoov(moov.Print()))
  {
    MovieHeaderDecodes(children, version, flags, creationTime, rest, after, moov);
    DateIsDated(creationTime);
  }

  lemma LargeSizeBytes(box: Box, buf: Bytes, pos: nat)
    requires box.Valid() && box.large && box.Size() < 0x1_0000_0000 && At(buf, pos, box.Print())
    ensures U32(buf, pos + 8) == 0 && buf[pos + 8] == 0 && U32(buf, pos + 12) == box.Size()
  {
    AtSplit(buf, pos, box.Header(), box.body);
    AtSplit(buf, pos, U32Bytes(1) + box.kind.Bytes(), U64Bytes(box.Size()));
    AtSplit(buf, pos + 8, U32Bytes(0), U32Bytes(box.Size()));
    U32RoundTrip(0, buf, pos + 8);
    U32RoundTrip(box.Size(), buf, pos + 12);
  }

  /** The condition on the inner header is needed: behind a 64-bit header the reader takes the size
      for the creation time, so a movie header below 2 GB never yields a date, whatever it says. */
  lemma LargeMvhdHeaderNeverRead(mvhd: Box, buf: Bytes, pos: nat)
    requires mvhd.Valid() && mvhd.kind == MVHD && mvhd.large && mvhd.Size() < MAC_EPOCH_OFFSET
    requires At(buf, pos, mvhd.Print())
    ensures ParseMvhd(buf, pos) == NoDate
  {
    PrintedHeader(mvhd, buf, pos);
    LargeSizeBytes(mvhd, buf, pos);
  }

  /** And on the outer one: a moov box below 4 GB with a 64-bit header never yields a date. */
  lemma LargeMoovHeaderNeverRead(moov: Box)
    requires moov.Valid() && moov.kind == MOOV && moov.large && moov.Size() < 0x1_0000_0000
    ensures ExtractFromMoov(moov.Print()) == NoDate
  {
    PrintedHeader(moov, moov.Print(), 0);
    LargeSizeBytes(moov, moov.Print(), 0);
  }
}
