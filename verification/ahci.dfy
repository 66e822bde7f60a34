/** The command structures of an AHCI port (kernel/src/ahci.rs). */
module AhciCommand {
  import opened Common
  import opened Bytes

  const LBA48 := 0x1_0000_0000_0000

  const READ_DMA_EXT: byte := 0x25
  const WRITE_DMA_EXT: byte := 0x35

  /** Command header 0, command FIS and PRDT entry 0, as they lie in memory. */
  datatype Table = Table(header: seq<u32>, fis: seq<byte>, prdt: seq<u32>) {
    predicate Sized() {
      |header| == 4 && |fis| == 64 && |prdt| == 4
    }
  }

  /** What the device takes a table to ask for. */
  datatype Command = Command(ata: byte, lba: nat, count: nat, write: bool, table: u64, buffer: u64, bytes: nat)

  function Header(ctba: u64, write: bool): seq<u32> {
    [5 + (if write then 64 else 0) + 65536, 0, ctba % U32, ctba / U32]
  }

  /** Register FIS host to device, with a 48-bit LBA. */
  function Fis(ata: byte, lba: u64, count: u16): (f: seq<byte>)
    ensures |f| == 64
  {
    seq(64, i => FisByte(ata, lba, count, i))
  }

  function FisByte(ata: byte, lba: u64, count: u16, i: int): byte {
    match i
    case 0 => 0x27
    case 1 => 0x80
    case 2 => ata
    case 4 => lba % 256
    case 5 => lba / 0x100 % 256
    case 6 => lba / 0x1_0000 % 256
    case 7 => 0x40
    case 8 => lba / 0x100_0000 % 256
    case 9 => lba / 0x1_0000_0000 % 256
    case 10 => lba / 0x100_0000_0000 % 256
    case 12 => count % 256
    case 13 => count / 256
    case _ => 0
  }

  /** The one scatter entry; its third word is left as it was. */
  function Prdt(data: u64, bytes: nat, was: u32): seq<u32>
    requires 1 <= bytes <= 0x40_0000
  {
    [data % U32, data / U32, was, bytes - 1]
  }

  function Encode(ctba: u64, data: u64, ata: byte, lba: u64, count: u16, bytes: nat, write: bool, was: u32): (t: Table)
    requires 1 <= bytes <= 0x40_0000
    ensures t.Sized()
  {
    Table(Header(ctba, write), Fis(ata, lba, count), Prdt(data, bytes, was))
  }

  /** The device's reading, by sections 4.2.2 and 4.2.3 of Serial ATA AHCI 1.3.1: 5 FIS words, one
      PRDT entry, a zero-based byte count, and a sector count of 0 standing for 65536. */
  function Decode(t: Table): Option<Command>
    requires t.Sized()
  {
    var f := t.fis;
    if t.header[0] % 32 != 5 || t.header[0] / U16 != 1 || f[0] != 0x27 || f[1] / 128 != 1 || f[7] / 64 % 2 != 1 then None
    else
      var count: nat := f[12] as nat + 256 * f[13] as nat;
      Some(Command(f[2], SixBytes(f[4], f[5], f[6], f[8], f[9], f[10]), if count == 0 then 65536 else count,
                   t.header[0] / 64 % 2 == 1, Joined(t.header[2], t.header[3]), Joined(t.prdt[0], t.prdt[1]),
                   t.prdt[3] % 0x40_0000 + 1))
  }

  function Joined(lo: u32, hi: u32): u64 {
    lo + U32 * hi
  }

  function SixBytes(a: nat, b: nat, c: nat, d: nat, e: nat, f: nat): nat {
    a + 256 * (b + 256 * (c + 256 * (d + 256 * (e + 256 * f))))
  }

  lemma DivideTwice(n: nat)
    ensures n / 0x1_0000 == n / 0x100 / 256 && n / 0x100_0000 == n / 0x1_0000 / 256
    ensures n / 0x1_0000_0000 == n / 0x100_0000 / 256 && n / 0x100_0000_0000 == n / 0x1_0000_0000 / 256
  {
  }

  lemma SixDigits(n: nat)
    ensures SixBytes(n % 256, n / 0x100 % 256, n / 0x1_0000 % 256, n / 0x100_0000 % 256,
                     n / 0x1_0000_0000 % 256, n / 0x100_0000_0000 % 256) == n % LBA48
  {
    DivideTwice(n);
    var top := n / 0x100_0000_0000 / 256;
    SixDigitsOf(n % 256, n / 0x100 % 256, n / 0x1_0000 % 256, n / 0x100_0000 % 256,
                n / 0x1_0000_0000 % 256, n / 0x100_0000_0000 % 256, top);
  }

  lemma SixDigitsOf(a: byte, b: byte, c: byte, d: byte, e: byte, f: byte, top: nat)
    ensures (SixBytes(a, b, c, d, e, f) + LBA48 * top) % LBA48 == SixBytes(a, b, c, d, e, f)
  {
  }

  /** The device is asked for the intended command, on the LBA cut to 48 bits. */
  lemma DecodesBack(ctba: u64, data: u64, ata: byte, lba: u64, count: u16, bytes: nat, write: bool, was: u32)
    requires 1 <= bytes <= 0x40_0000
    ensures Decode(Encode(ctba, data, ata, lba, count, bytes, write, was))
            == Some(Command(ata, lba % LBA48, if count == 0 then 65536 else count, write, ctba, data, bytes))
  {
    hide SixBytes;
    SixDigits(lba);
    HeaderBits(ctba, write);
    Rejoined(ctba);
    Rejoined(data);
  }

  lemma HeaderBits(ctba: u64, write: bool)
    ensures var h := Header(ctba, write)[0];
            h % 32 == 5 && h / U16 == 1 && (h / 64 % 2 == 1 <==> write)
  {
  }

  lemma Rejoined(a: u64)
    ensures Joined(a % U32, a / U32) == a
  {
  }

  /** The LBA arrives as it was meant if and only if it has at most 48 bits. */
  lemma LbaArrives(ctba: u64, data: u64, ata: byte, lba: u64, count: u16, bytes: nat, write: bool, was: u32)
    requires 1 <= bytes <= 0x40_0000
    ensures Decode(Encode(ctba, data, ata, lba, count, bytes, write, was)).value.lba == lba <==> lba < LBA48
  {
    hide Encode, Decode;
    DecodesBack(ctba, data, ata, lba, count, bytes, write, was);
  }
}

/** Chunked transfers through the 64 KiB window (kernel/src/ahci.rs). */
module AhciTransfer {
  import opened Common
  import opened Bytes
  import opened AhciCommand

  const DATA_MAX := 65536

  type Sector = s: seq<byte> | |s| == 512 witness Zeros(512)

  /** The sectors that exist. */
  type Disk = map<nat, Sector>

  datatype Drive = Drive(disk: Disk, window: seq<byte>, ctba: u64, data: u64) {
    predicate Ok() {
      |window| == DATA_MAX
    }
  }

  /** How the device answers a command: a failed one may leave its own sectors and its own
      stretch of the window in any state. */
  datatype Outcome = Completed | Failed(torn: Disk, junk: map<nat, byte>)

  predicate Present(disk: Disk, lba: nat, count: nat) {
    forall s :: lba <= s < lba + count ==> s in disk
  }

  predicate Serves(d: Drive, c: Command) {
    && c.buffer == d.data && c.table == d.ctba && c.bytes == c.count * 512 <= DATA_MAX
    && c.ata == (if c.write then WRITE_DMA_EXT else READ_DMA_EXT)
    && Present(d.disk, c.lba, c.count)
  }

  function Cut(window: seq<byte>, i: nat): Sector
    requires 512 * i + 512 <= |window|
  {
    window[512 * i..512 * i + 512]
  }

  function Put(d: Drive, lba: nat, count: nat): (r: Drive)
    requires d.Ok() && count * 512 <= DATA_MAX
    ensures r.disk.Keys == d.disk.Keys
  {
    d.(disk := map s | s in d.disk :: if lba <= s < lba + count then Cut(d.window, s - lba) else d.disk[s])
  }

  function Fetch(d: Drive, lba: nat, count: nat): (r: Drive)
    requires d.Ok() && count * 512 <= DATA_MAX && Present(d.disk, lba, count)
    ensures r.Ok()
  {
    d.(window := seq(DATA_MAX, j requires 0 <= j < DATA_MAX =>
         if j < 512 * count then d.disk[lba + j / 512][j % 512] else d.window[j]))
  }

  /** What a failed command may leave behind. */
  function Spoilt(d: Drive, c: Command, o: Outcome): (r: Drive)
    requires d.Ok()
    ensures r.Ok() && r.disk.Keys == d.disk.Keys
  {
    if o.Completed? then d
    else if c.write then
      d.(disk := map s | s in d.disk ::
           if c.lba <= s < c.lba + c.count && s in o.torn then o.torn[s] else d.disk[s])
    else
      d.(window := seq(DATA_MAX, j requires 0 <= j < DATA_MAX =>
           if j < c.bytes && j in o.junk then o.junk[j] else d.window[j]))
  }

  function Device(d: Drive, c: Command, o: Outcome): (r: (bool, Drive))
    requires d.Ok()
    ensures r.1.Ok()
  {
    if o.Completed? && Serves(d, c) then (true, if c.write then Put(d, c.lba, c.count) else Fetch(d, c.lba, c.count))
    else (false, Spoilt(d, c, o))
  }

  /** One command through slot 0: fill in the structures, let the device act on them. */
  function Issue(d: Drive, write: bool, lba: u64, nsec: nat, o: Outcome): (r: (bool, Drive))
    requires d.Ok() && 1 <= nsec <= 128
    ensures r.1.Ok()
  {
    match Decode(Encode(d.ctba, d.data, if write then WRITE_DMA_EXT else READ_DMA_EXT, lba, nsec, nsec * 512, write, 0))
    case None => (false, d)
    case Some(c) => Device(d, c, o)
  }

  /** A command reaches the sectors of its LBA cut to 48 bits, and completes exactly when the
      device completes it and those sectors exist. */
  lemma IssueReaches(d: Drive, write: bool, lba: u64, nsec: nat, o: Outcome)
    requires d.Ok() && 1 <= nsec <= 128
    ensures var r, a := Issue(d, write, lba, nsec, o), lba % LBA48;
            && r.0 == (o.Completed? && Present(d.disk, a, nsec))
            && (r.0 && write ==> r.1 == Put(d, a, nsec))
            && (r.0 && !write ==> r.1 == Fetch(d, a, nsec))
            && r.1.ctba == d.ctba && r.1.data == d.data
            && r.1.disk.Keys == d.disk.Keys && (!write ==> r.1.disk == d.disk)
            && forall s :: s in d.disk && !(a <= s < a + nsec) ==> r.1.disk[s] == d.disk[s]
  {
    hide Decode, Encode;
    DecodesBack(d.ctba, d.data, if write then WRITE_DMA_EXT else READ_DMA_EXT, lba, nsec, nsec * 512, write, 0);
  }

  function Chunk(len: nat, done: nat): (n: nat)
    requires done < len
    ensures 1 <= n <= len - done && n <= DATA_MAX
  {
    Min(len - done, DATA_MAX)
  }

  function Sectors(len: nat): nat {
    (len + 511) / 512
  }

  /** The window with a chunk copied in and its last sector filled up with zeros. */
  function Loaded(window: seq<byte>, chunk: seq<byte>): (w: seq<byte>)
    requires |window| == DATA_MAX && |chunk| <= DATA_MAX
    ensures |w| == DATA_MAX
  {
    chunk + Zeros(Sectors(|chunk|) * 512 - |chunk|) + window[Sectors(|chunk|) * 512..]
  }

  function At(lba: u64, done: nat): u64 {
    (lba + done / 512) % U64
  }

  /** `write_sectors` from byte `done` on; `o(k)` is the outcome of the k-th command. */
  function WriteFrom(d: Drive, lba: u64, buf: seq<byte>, done: nat, o: nat -> Outcome): (r: (bool, Drive))
    requires d.Ok()
    ensures r.1.Ok()
    decreases |buf| - done
  {
    if done >= |buf| then (true, d) else
    var n := Chunk(|buf|, done);
    var loaded := d.(window := Loaded(d.window, buf[done..done + n]));
    var r := Issue(loaded, true, At(lba, done), Sectors(n), o(done / DATA_MAX));
    if !r.0 then r else WriteFrom(r.1, lba, buf, done + n, o)
  }

  /** `read_sectors` from byte `done` on: success, the drive, and the caller's buffer. */
  function ReadFrom(d: Drive, lba: u64, buf: seq<byte>, done: nat, o: nat -> Outcome): (r: (bool, Drive, seq<byte>))
    requires d.Ok()
    ensures r.1.Ok() && |r.2| == |buf|
    decreases |buf| - done
  {
    if done >= |buf| then (true, d, buf) else
    var n := Chunk(|buf|, done);
    var r := Issue(d, false, At(lba, done), Sectors(n), o(done / DATA_MAX));
    if !r.0 then (false, r.1, buf)
    else ReadFrom(r.1, lba, buf[..done] + r.1.window[..n] + buf[done + n..], done + n, o)
  }

  // ---------- what the transfers are for ----------

  /** Sector i of a buffer laid out from a sector boundary, zeros past its end. */
  function SectorOf(buf: seq<byte>, i: nat): Sector {
    seq(512, j requires 0 <= j < 512 => if 512 * i + j < |buf| then buf[512 * i + j] else 0)
  }

  /** Sectors a to t of the buffer are on the disk, and nothing outside a to u has changed. */
  ghost predicate Landed(before: Disk, after: Disk, lba: nat, buf: seq<byte>, a: nat, t: nat, u: nat) {
    && after.Keys == before.Keys
    && (forall s :: s in before && lba + a <= s < lba + t ==> after[s] == SectorOf(buf, s - lba))
    && forall s :: s in before && !(lba + a <= s < lba + u) ==> after[s] == before[s]
  }

  /** Bytes a to t of the buffer are those of the disk, the others are as they were. */
  ghost predicate Fetched(disk: Disk, lba: nat, was: seq<byte>, now: seq<byte>, a: nat, t: nat) {
    && |now| == |was|
    && (forall i :: a <= i < t && i < |was| ==> lba + i / 512 in disk && now[i] == disk[lba + i / 512][i % 512])
    && forall i :: 0 <= i < |was| && !(a <= i < t) ==> now[i] == was[i]
  }

  /** The i-th sector of the loaded window is the buffer's sector. */
  lemma LoadedSector(window: seq<byte>, buf: seq<byte>, done: nat, i: nat)
    requires |window| == DATA_MAX && done < |buf| && done % DATA_MAX == 0
    requires i < Sectors(Chunk(|buf|, done))
    ensures var w := Loaded(window, buf[done..done + Chunk(|buf|, done)]);
            Cut(w, i) == SectorOf(buf, done / 512 + i)
  {
    var n := Chunk(|buf|, done);
    var w, s := Loaded(window, buf[done..done + n]), SectorOf(buf, done / 512 + i);
    assert 512 * (done / 512) == done;
    forall j | 0 <= j < 512
      ensures w[512 * i + j] == s[j]
    {
      if 512 * i + j < n {
        assert w[512 * i + j] == buf[done + (512 * i + j)];
      } else {
        assert w[512 * i + j] == 0 && done + n == |buf|;
      }
    }
  }

  lemma Position(lba: u64, len: nat, done: nat)
    requires done < len && done % DATA_MAX == 0 && lba + Sectors(len) <= LBA48
    ensures At(lba, done) % LBA48 == lba + done / 512 && done / 512 == Sectors(done)
    ensures Sectors(done + Chunk(len, done)) == Sectors(done) + Sectors(Chunk(len, done)) <= Sectors(len)
    ensures 1 <= Sectors(Chunk(len, done)) <= 128
    ensures (done + Chunk(len, done)) % DATA_MAX == 0 || done + Chunk(len, done) == len
  {
    ChunkSectors(len, done);
    AtSmall(lba, done);
  }

  lemma AtSmall(lba: u64, done: nat)
    requires lba + done / 512 < LBA48
    ensures At(lba, done) % LBA48 == lba + done / 512
  {
  }

  lemma ChunkSectors(len: nat, done: nat)
    requires done < len && done % DATA_MAX == 0
    ensures done / 512 == Sectors(done) < Sectors(len)
    ensures Sectors(done + Chunk(len, done)) == Sectors(done) + Sectors(Chunk(len, done)) <= Sectors(len)
    ensures 1 <= Sectors(Chunk(len, done)) <= 128
    ensures (done + Chunk(len, done)) % DATA_MAX == 0 || done + Chunk(len, done) == len
  {
    hide Sectors;
    var q, n := done / DATA_MAX, Chunk(len, done);
    ShiftSectors(q, 0);
    ShiftSectors(q, n);
    ShiftSectors(q, len - done);
    SectorsOfChunk(n);
    SectorsGrow(n, len - done);
    if n == DATA_MAX {
      WindowBoundary(q, n);
    }
  }

  lemma ShiftSectors(q: nat, x: nat)
    ensures Sectors(DATA_MAX * q + x) == 128 * q + Sectors(x)
    ensures Sectors(0) == 0 && DATA_MAX * q / 512 == 128 * q
  {
    assert DATA_MAX * q + x + 511 == 512 * (128 * q) + (x + 511);
  }

  lemma SectorsGrow(a: nat, b: nat)
    requires a <= b
    ensures Sectors(a) <= Sectors(b)
  {
  }

  lemma WindowBoundary(q: nat, n: nat)
    requires n == DATA_MAX
    ensures (DATA_MAX * q + n) % DATA_MAX == 0
  {
    assert DATA_MAX * q + n == DATA_MAX * (q + 1);
  }

  lemma PutLands(d: Drive, lba: nat, buf: seq<byte>, a: nat, count: nat)
    requires d.Ok() && count * 512 <= DATA_MAX
    requires forall i :: 0 <= i < count ==> Cut(d.window, i) == SectorOf(buf, a + i)
    ensures Landed(d.disk, Put(d, lba + a, count).disk, lba, buf, a, a + count, a + count)
  {
    hide Cut, SectorOf;
    var after := Put(d, lba + a, count).disk;
    forall s | s in d.disk && lba + a <= s < lba + a + count
      ensures after[s] == SectorOf(buf, s - lba)
    {
      var i := s - (lba + a);
      assert Cut(d.window, i) == SectorOf(buf, a + i);
    }
  }

  /** A successful chunk lands. */
  lemma ChunkLands(d: Drive, lba: u64, buf: seq<byte>, done: nat)
    requires d.Ok() && done < |buf| && done % DATA_MAX == 0
    ensures var n := Chunk(|buf|, done);
            var put := Put(d.(window := Loaded(d.window, buf[done..done + n])), lba + done / 512, Sectors(n));
            Landed(d.disk, put.disk, lba, buf, done / 512, done / 512 + Sectors(n), done / 512 + Sectors(n))
  {
    hide Loaded, SectorOf, Sectors, Put, Cut, Landed;
    var n := Chunk(|buf|, done);
    var w := Loaded(d.window, buf[done..done + n]);
    SectorsOfChunk(n);
    forall i | 0 <= i < Sectors(n)
      ensures Cut(w, i) == SectorOf(buf, done / 512 + i)
    {
      LoadedSector(d.window, buf, done, i);
    }
    PutLands(d.(window := w), lba, buf, done / 512, Sectors(n));
  }

  lemma LandedTwice(a: Disk, b: Disk, c: Disk, lba: nat, buf: seq<byte>, x: nat, y: nat, t: nat, u: nat)
    requires x <= y <= t <= u && Landed(a, b, lba, buf, x, y, y) && Landed(b, c, lba, buf, y, t, u)
    ensures Landed(a, c, lba, buf, x, t, u)
  {
  }

  /** What a write leaves: t sectors of the buffer, and at most one more command's worth touched. */
  lemma {:induction false} WriteFromLands(d: Drive, lba: u64, buf: seq<byte>, done: nat, o: nat -> Outcome)
    returns (t: nat, u: nat)
    requires d.Ok() && done <= |buf| && lba + Sectors(|buf|) <= LBA48
    requires done % DATA_MAX == 0 || done == |buf|
    ensures Sectors(done) <= t <= u <= t + 128 && u <= Sectors(|buf|)
    ensures Landed(d.disk, WriteFrom(d, lba, buf, done, o).1.disk, lba, buf, Sectors(done), t, u)
    ensures WriteFrom(d, lba, buf, done, o).0 ==>
              t == Sectors(|buf|) && Present(d.disk, lba + Sectors(done), t - Sectors(done))
    decreases |buf| - done
  {
    hide Issue, Loaded, SectorOf, Sectors, At, Landed, Put, Fetch, Present;
    t, u := Sectors(done), Sectors(done);
    if done >= |buf| {
      NothingLanded(d.disk, d.disk, lba, buf, t, u);
    } else {
      Position(lba, |buf|, done);
      var n := Chunk(|buf|, done);
      var loaded := d.(window := Loaded(d.window, buf[done..done + n]));
      IssueReaches(loaded, true, At(lba, done), Sectors(n), o(done / DATA_MAX));
      var r := Issue(loaded, true, At(lba, done), Sectors(n), o(done / DATA_MAX));
      if r.0 {
        ChunkLands(d, lba, buf, done);
        t, u := WriteFromLands(r.1, lba, buf, done + n, o);
        PresentTwice(d.disk, r.1.disk, lba + Sectors(done), Sectors(n), t - Sectors(done + n));
        var after := WriteFrom(r.1, lba, buf, done + n, o).1.disk;
        LandedTwice(d.disk, r.1.disk, after, lba, buf, Sectors(done), Sectors(done + n), t, u);
      } else {
        u := Sectors(done + n);
        NothingLanded(d.disk, r.1.disk, lba, buf, t, u);
      }
    }
  }

  lemma NothingLanded(before: Disk, after: Disk, lba: nat, buf: seq<byte>, t: nat, u: nat)
    requires after.Keys == before.Keys
    requires forall s :: s in before && !(lba + t <= s < lba + u) ==> after[s] == before[s]
    ensures Landed(before, after, lba, buf, t, t, u)
    ensures Present(before, lba + t, 0)
  {
  }

  lemma PresentTwice(before: Disk, after: Disk, a: nat, n: nat, m: nat)
    requires after.Keys == before.Keys && Present(before, a, n)
    ensures Present(after, a + n, m) ==> Present(before, a, n + m)
  {
  }

  /** A successful write puts exactly the buffer, its last sector filled up with zeros, on exactly
      the sectors of its range. A failed one leaves a prefix, at most 128 more sectors of the
      range in doubt, and everything else alone. */
  lemma WriteLands(d: Drive, lba: u64, buf: seq<byte>, o: nat -> Outcome)
    requires d.Ok() && lba + Sectors(|buf|) <= LBA48
    ensures var r, n := WriteFrom(d, lba, buf, 0, o), Sectors(|buf|);
            && (r.0 ==> Present(d.disk, lba, n) && Landed(d.disk, r.1.disk, lba, buf, 0, n, n))
            && (!r.0 ==> exists t, u :: 0 <= t <= u <= t + 128 && u <= n && Landed(d.disk, r.1.disk, lba, buf, 0, t, u))
  {
    hide WriteFrom, Landed;
    var t, u := WriteFromLands(d, lba, buf, 0, o);
  }

  lemma FetchedTwice(disk: Disk, lba: nat, a: seq<byte>, b: seq<byte>, c: seq<byte>, x: nat, y: nat, t: nat)
    requires x <= y <= t && Fetched(disk, lba, a, b, x, y) && Fetched(disk, lba, b, c, y, t)
    ensures Fetched(disk, lba, a, c, x, t)
  {
  }

  lemma ChunkFetched(d: Drive, lba: u64, buf: seq<byte>, done: nat)
    requires d.Ok() && done < |buf| && done % DATA_MAX == 0
    requires Present(d.disk, lba + done / 512, Sectors(Chunk(|buf|, done)))
    ensures var n := Chunk(|buf|, done);
            var window := Fetch(d, lba + done / 512, Sectors(n)).window;
            Fetched(d.disk, lba, buf, buf[..done] + window[..n] + buf[done + n..], done, done + n)
  {
    hide Sectors, Fetch;
    var n := Chunk(|buf|, done);
    SectorsOfChunk(n);
    var window := Fetch(d, lba + done / 512, Sectors(n)).window;
    forall i | done <= i < done + n
      ensures lba + i / 512 in d.disk && window[i - done] == d.disk[lba + i / 512][i % 512]
    {
      SameByte(done, i, n);
      FetchedByte(d, lba + done / 512, Sectors(n), i - done);
    }
  }

  lemma SameByte(done: nat, i: nat, n: nat)
    requires done % DATA_MAX == 0 && done <= i < done + n
    ensures i / 512 == done / 512 + (i - done) / 512 && i % 512 == (i - done) % 512
    ensures i - done < 512 * Sectors(n)
  {
    var q := done / DATA_MAX;
    assert done == 512 * (128 * q);
    AtSectorBoundary(128 * q, i - done);
    AtSectorBoundary(128 * q, 0);
    assert n <= 512 * Sectors(n);
  }

  lemma AtSectorBoundary(a: nat, j: nat)
    ensures (512 * a + j) / 512 == a + j / 512 && (512 * a + j) % 512 == j % 512
  {
  }

  lemma FetchedByte(d: Drive, lba: nat, count: nat, j: nat)
    requires d.Ok() && count * 512 <= DATA_MAX && Present(d.disk, lba, count) && j < 512 * count
    ensures lba + j / 512 in d.disk && Fetch(d, lba, count).window[j] == d.disk[lba + j / 512][j % 512]
  {
  }

  lemma {:induction false} ReadFromFetches(d: Drive, lba: u64, buf: seq<byte>, done: nat, o: nat -> Outcome)
    returns (t: nat)
    requires d.Ok() && done <= |buf| && lba + Sectors(|buf|) <= LBA48
    requires done % DATA_MAX == 0 || done == |buf|
    ensures done <= t <= |buf|
    ensures ReadFrom(d, lba, buf, done, o).1.disk == d.disk
    ensures Fetched(d.disk, lba, buf, ReadFrom(d, lba, buf, done, o).2, done, t)
    ensures ReadFrom(d, lba, buf, done, o).0 ==> t == |buf|
    decreases |buf| - done
  {
    hide Issue, Fetch, Sectors, At, Fetched;
    t := done;
    if done < |buf| {
      Position(lba, |buf|, done);
      var n := Chunk(|buf|, done);
      IssueReaches(d, false, At(lba, done), Sectors(n), o(done / DATA_MAX));
      var r := Issue(d, false, At(lba, done), Sectors(n), o(done / DATA_MAX));
      if r.0 {
        var next := buf[..done] + r.1.window[..n] + buf[done + n..];
        ChunkFetched(d, lba, buf, done);
        t := ReadFromFetches(r.1, lba, next, done + n, o);
        FetchedTwice(d.disk, lba, buf, next, ReadFrom(r.1, lba, next, done + n, o).2, done, done + n, t);
      } else {
        NothingFetched(d.disk, lba, buf, done);
      }
    } else {
      NothingFetched(d.disk, lba, buf, done);
    }
  }

  lemma NothingFetched(disk: Disk, lba: nat, buf: seq<byte>, done: nat)
    ensures Fetched(disk, lba, buf, buf, done, done)
  {
  }

  /** A read never changes the disk; a successful one returns exactly the bytes of its range. */
  lemma ReadReturns(d: Drive, lba: u64, buf: seq<byte>, o: nat -> Outcome)
    requires d.Ok() && lba + Sectors(|buf|) <= LBA48
    ensures var r := ReadFrom(d, lba, buf, 0, o);
            && r.1.disk == d.disk
            && (r.0 ==> Fetched(d.disk, lba, buf, r.2, 0, |buf|))
            && (!r.0 ==> exists t :: 0 <= t <= |buf| && Fetched(d.disk, lba, buf, r.2, 0, t))
  {
    hide ReadFrom, Fetched;
    var t := ReadFromFetches(d, lba, buf, 0, o);
  }

  /** Reading back what was written, into any buffer of that length, gives it back. */
  lemma WriteThenRead(d: Drive, lba: u64, buf: seq<byte>, into: seq<byte>, o: nat -> Outcome, q: nat -> Outcome)
    requires d.Ok() && lba + Sectors(|buf|) <= LBA48 && |into| == |buf|
    requires WriteFrom(d, lba, buf, 0, o).0
    requires ReadFrom(WriteFrom(d, lba, buf, 0, o).1, lba, into, 0, q).0
    ensures ReadFrom(WriteFrom(d, lba, buf, 0, o).1, lba, into, 0, q).2 == buf
  {
    hide WriteFrom, ReadFrom;
    WriteLands(d, lba, buf, o);
    var w := WriteFrom(d, lba, buf, 0, o).1;
    ReadReturns(w, lba, into, q);
    var got := ReadFrom(w, lba, into, 0, q).2;
    forall i | 0 <= i < |buf|
      ensures got[i] == buf[i]
    {
      assert got[i] == w.disk[lba + i / 512][i % 512];
      assert i / 512 < Sectors(|buf|) && w.disk[lba + i / 512] == SectorOf(buf, i / 512);
      assert 512 * (i / 512) + i % 512 == i;
    }
  }

  // ---------- addresses past 48 bits ----------

  lemma SamePlace(lba: u64, done: nat)
    ensures At(lba, done) % LBA48 == At(lba % LBA48, done) % LBA48
  {
    var a, k := lba % LBA48, done / 512;
    assert U64 == 65536 * LBA48;
    assert lba == a + LBA48 * (lba / LBA48);
    CutTwice(lba + k);
    CutTwice(a + k);
    SameRemainder(a + k, lba / LBA48);
  }

  lemma CutTwice(n: nat)
    ensures n % U64 % LBA48 == n % LBA48
  {
  }

  lemma SameRemainder(n: nat, q: nat)
    ensures (n + LBA48 * q) % LBA48 == n % LBA48
  {
  }

  /** Every write acts as the one at its LBA cut to 48 bits. */
  lemma {:induction false} WriteWraps(d: Drive, lba: u64, buf: seq<byte>, done: nat, o: nat -> Outcome)
    requires d.Ok()
    ensures WriteFrom(d, lba, buf, done, o) == WriteFrom(d, lba % LBA48, buf, done, o)
    decreases |buf| - done
  {
    hide Issue, Loaded, Sectors, At;
    if done < |buf| {
      var n := Chunk(|buf|, done);
      var loaded := d.(window := Loaded(d.window, buf[done..done + n]));
      var x := o(done / DATA_MAX);
      SectorsOfChunk(n);
      SameIssue(loaded, true, lba, done, Sectors(n), x);
      var r := Issue(loaded, true, At(lba, done), Sectors(n), x);
      if r.0 {
        WriteWraps(r.1, lba, buf, done + n, o);
      }
    }
  }

  lemma SectorsOfChunk(n: nat)
    requires 1 <= n <= DATA_MAX
    ensures 1 <= Sectors(n) <= 128
  {
  }

  lemma SameIssue(d: Drive, write: bool, lba: u64, done: nat, nsec: nat, o: Outcome)
    requires d.Ok() && 1 <= nsec <= 128
    ensures Issue(d, write, At(lba, done), nsec, o) == Issue(d, write, At(lba % LBA48, done), nsec, o)
  {
    hide Decode, Encode, Device, At;
    SamePlace(lba, done);
    var ata := if write then WRITE_DMA_EXT else READ_DMA_EXT;
    DecodesBack(d.ctba, d.data, ata, At(lba, done), nsec, nsec * 512, write, 0);
    DecodesBack(d.ctba, d.data, ata, At(lba % LBA48, done), nsec, nsec * 512, write, 0);
  }

  /** The sector a command finds sector i of the buffer a place on. */
  function Place(lba: nat, i: nat): nat {
    (lba + i) % LBA48
  }

  /** Sectors a to n of the buffer are on the disk, each at its place going round at 2^48, the later one where
      two have the same place; no other sector has changed. */
  ghost predicate LandedRound(before: Disk, after: Disk, lba: nat, buf: seq<byte>, a: nat, n: nat) {
    && after.Keys == before.Keys
    && (forall i :: a <= i < n && n <= i + LBA48 ==>
          Place(lba, i) in before && after[Place(lba, i)] == SectorOf(buf, i))
    && forall s :: s in before && (forall i :: a <= i < n ==> Place(lba, i) != s) ==> after[s] == before[s]
  }

  lemma SamePlaceTwice(lba: nat, i: nat, j: nat)
    requires i < j < i + LBA48
    ensures Place(lba, i) != Place(lba, j)
  {
  }

  /** Inside one command that the disk has all sectors for, places follow each other. */
  lemma PlacesFollow(lba: nat, a: nat, j: nat)
    requires Place(lba, a) + j < LBA48
    ensures Place(lba, a + j) == Place(lba, a) + j
  {
  }

  lemma RoundTwice(x: Disk, y: Disk, z: Disk, lba: nat, buf: seq<byte>, a: nat, b: nat, n: nat)
    requires a <= b <= n && LandedRound(x, y, lba, buf, a, b) && LandedRound(y, z, lba, buf, b, n) && b <= a + LBA48
    ensures LandedRound(x, z, lba, buf, a, n)
  {
    hide SectorOf, Place;
    forall i | a <= i < n && n <= i + LBA48
      ensures Place(lba, i) in x && z[Place(lba, i)] == SectorOf(buf, i)
    {
      if i < b {
        assert Place(lba, i) in x && y[Place(lba, i)] == SectorOf(buf, i);
        forall k | b <= k < n
          ensures Place(lba, k) != Place(lba, i)
        {
          SamePlaceTwice(lba, i, k);
        }
      }
    }
  }

  lemma PlaceInChunk(disk: Disk, lba: nat, a: nat, count: nat, j: nat)
    requires (forall s :: s in disk ==> s < LBA48) && Present(disk, Place(lba, a), count) && j < count
    ensures Place(lba, a + j) == Place(lba, a) + j && Place(lba, a + j) in disk
  {
    hide Place;
    assert Place(lba, a) + j in disk;
    PlacesFollow(lba, a, j);
  }

  /** A completed chunk is at its places. */
  lemma ChunkRound(d: Drive, lba: u64, buf: seq<byte>, done: nat, at: nat)
    requires d.Ok() && done < |buf| && done % DATA_MAX == 0 && (forall s :: s in d.disk ==> s < LBA48)
    requires at == Place(lba, done / 512) && Present(d.disk, at, Sectors(Chunk(|buf|, done)))
    ensures var n := Chunk(|buf|, done);
            var put := Put(d.(window := Loaded(d.window, buf[done..done + n])), at, Sectors(n));
            LandedRound(d.disk, put.disk, lba, buf, done / 512, done / 512 + Sectors(n))
  {
    hide Loaded, SectorOf, Sectors, Cut, Place;
    var n, a := Chunk(|buf|, done), done / 512;
    SectorsOfChunk(n);
    var w := Loaded(d.window, buf[done..done + n]);
    var put := Put(d.(window := w), at, Sectors(n));
    forall i | a <= i < a + Sectors(n)
      ensures Place(lba, i) in d.disk && put.disk[Place(lba, i)] == SectorOf(buf, i)
    {
      PlaceInChunk(d.disk, lba, a, Sectors(n), i - a);
      LoadedSector(d.window, buf, done, i - a);
    }
    forall s | s in d.disk && forall i :: a <= i < a + Sectors(n) ==> Place(lba, i) != s
      ensures put.disk[s] == d.disk[s]
    {
      if at <= s < at + Sectors(n) {
        PlaceInChunk(d.disk, lba, a, Sectors(n), s - at);
      }
    }
  }

  lemma NothingRound(disk: Disk, lba: nat, buf: seq<byte>, a: nat)
    ensures LandedRound(disk, disk, lba, buf, a, a)
  {
  }

  lemma AtPlace(lba: u64, done: nat)
    ensures At(lba, done) % LBA48 == Place(lba, done / 512)
  {
    CutTwice(lba + done / 512);
  }

  lemma {:induction false} WriteFromGoes(d: Drive, lba: u64, buf: seq<byte>, done: nat, o: nat -> Outcome)
    requires d.Ok() && done <= |buf| && (forall s :: s in d.disk ==> s < LBA48)
    requires (done % DATA_MAX == 0 || done == |buf|) && WriteFrom(d, lba, buf, done, o).0
    ensures LandedRound(d.disk, WriteFrom(d, lba, buf, done, o).1.disk, lba, buf, Sectors(done), Sectors(|buf|))
    decreases |buf| - done
  {
    hide Issue, Loaded, SectorOf, Sectors, At, LandedRound, Put, Fetch, Place;
    if done >= |buf| {
      NothingRound(d.disk, lba, buf, Sectors(done));
    } else {
      ChunkSectors(|buf|, done);
      var n := Chunk(|buf|, done);
      var loaded := d.(window := Loaded(d.window, buf[done..done + n]));
      var x := o(done / DATA_MAX);
      IssueReaches(loaded, true, At(lba, done), Sectors(n), x);
      var r := Issue(loaded, true, At(lba, done), Sectors(n), x);
      AtPlace(lba, done);
      ChunkRound(d, lba, buf, done, At(lba, done) % LBA48);
      WriteFromGoes(r.1, lba, buf, done + n, o);
      RoundTwice(d.disk, r.1.disk, WriteFrom(r.1, lba, buf, done + n, o).1.disk, lba, buf,
                 Sectors(done), Sectors(done + n), Sectors(|buf|));
    }
  }

  /** Where a successful write goes, for any address: sector i of the buffer is on sector (lba + i) mod 2^48, so a range
      that passes 2^48 continues at sector 0. */
  lemma WriteGoes(d: Drive, lba: u64, buf: seq<byte>, o: nat -> Outcome)
    requires d.Ok() && (forall s :: s in d.disk ==> s < LBA48) && WriteFrom(d, lba, buf, 0, o).0
    ensures LandedRound(d.disk, WriteFrom(d, lba, buf, 0, o).1.disk, lba, buf, 0, Sectors(|buf|))
  {
    hide LandedRound, WriteFrom;
    WriteFromGoes(d, lba, buf, 0, o);
  }

  /** A successful write is where it was meant to be if and only if its range ends within
      the 2^48 sectors a command can name. */
  lemma LandsWhenAddressable(d: Drive, lba: u64, buf: seq<byte>, o: nat -> Outcome)
    requires d.Ok() && (forall s :: s in d.disk ==> s < LBA48) && buf != [] && WriteFrom(d, lba, buf, 0, o).0
    ensures var after, n := WriteFrom(d, lba, buf, 0, o).1.disk, Sectors(|buf|);
            (Present(after, lba, n) && Landed(d.disk, after, lba, buf, 0, n, n)) <==> lba + n <= LBA48
  {
    hide WriteFrom, Landed;
    var after, n := WriteFrom(d, lba, buf, 0, o).1.disk, Sectors(|buf|);
    if lba + n <= LBA48 {
      WriteLands(d, lba, buf, o);
      assert after.Keys == d.disk.Keys by { LandedKeys(d.disk, after, lba, buf, 0, n, n); }
    } else if Landed(d.disk, after, lba, buf, 0, n, n) {
      LandedKeys(d.disk, after, lba, buf, 0, n, n);
      assert lba + n - 1 !in after;
    }
  }

  lemma LandedKeys(before: Disk, after: Disk, lba: nat, buf: seq<byte>, a: nat, t: nat, u: nat)
    requires Landed(before, after, lba, buf, a, t, u)
    ensures after.Keys == before.Keys
  {
  }

  lemma {:induction false} ReadWraps(d: Drive, lba: u64, buf: seq<byte>, done: nat, o: nat -> Outcome)
    requires d.Ok()
    ensures ReadFrom(d, lba, buf, done, o) == ReadFrom(d, lba % LBA48, buf, done, o)
    decreases |buf| - done
  {
    hide Issue, Sectors, At;
    if done < |buf| {
      var n := Chunk(|buf|, done);
      SectorsOfChunk(n);
      SameIssue(d, false, lba, done, Sectors(n), o(done / DATA_MAX));
      var r := Issue(d, false, At(lba, done), Sectors(n), o(done / DATA_MAX));
      if r.0 {
        ReadWraps(r.1, lba, buf[..done] + r.1.window[..n] + buf[done + n..], done + n, o);
      }
    }
  }

  /** Within the addressable range a write succeeds exactly when every sector of the range exists
      and the device completes every command. */
  lemma {:induction false} WriteSucceeds(d: Drive, lba: u64, buf: seq<byte>, done: nat, o: nat -> Outcome)
    requires d.Ok() && done <= |buf| && lba + Sectors(|buf|) <= LBA48
    requires done % DATA_MAX == 0 || done == |buf|
    ensures WriteFrom(d, lba, buf, done, o).0 <==>
              (forall k: nat :: done <= k * DATA_MAX < |buf| ==> o(k).Completed?)
              && Present(d.disk, lba + Sectors(done), Sectors(|buf|) - Sectors(done))
    decreases |buf| - done
  {
    hide Issue, Loaded, Sectors, At, Put, Fetch;
    if done < |buf| {
      Position(lba, |buf|, done);
      var n := Chunk(|buf|, done);
      var loaded := d.(window := Loaded(d.window, buf[done..done + n]));
      var x := o(done / DATA_MAX);
      IssueReaches(loaded, true, At(lba, done), Sectors(n), x);
      var r := Issue(loaded, true, At(lba, done), Sectors(n), x);
      assert done / DATA_MAX * DATA_MAX == done;
      if r.0 {
        WriteSucceeds(r.1, lba, buf, done + n, o);
        PresentTwice(d.disk, r.1.disk, lba + Sectors(done), Sectors(n), Sectors(|buf|) - Sectors(done + n));
        LaterChunks(|buf|, done, o);
      }
    }
  }

  /** So does a read. */
  lemma {:induction false} ReadSucceeds(d: Drive, lba: u64, buf: seq<byte>, done: nat, o: nat -> Outcome)
    requires d.Ok() && done <= |buf| && lba + Sectors(|buf|) <= LBA48
    requires done % DATA_MAX == 0 || done == |buf|
    ensures ReadFrom(d, lba, buf, done, o).0 <==>
              (forall k: nat :: done <= k * DATA_MAX < |buf| ==> o(k).Completed?)
              && Present(d.disk, lba + Sectors(done), Sectors(|buf|) - Sectors(done))
    decreases |buf| - done
  {
    hide Issue, Sectors, At, Put, Fetch;
    if done < |buf| {
      Position(lba, |buf|, done);
      var n := Chunk(|buf|, done);
      var x := o(done / DATA_MAX);
      IssueReaches(d, false, At(lba, done), Sectors(n), x);
      var r := Issue(d, false, At(lba, done), Sectors(n), x);
      assert done / DATA_MAX * DATA_MAX == done;
      if r.0 {
        ReadSucceeds(r.1, lba, buf[..done] + r.1.window[..n] + buf[done + n..], done + n, o);
        PresentTwice(d.disk, r.1.disk, lba + Sectors(done), Sectors(n), Sectors(|buf|) - Sectors(done + n));
        LaterChunks(|buf|, done, o);
      }
    }
  }

  lemma LaterChunks(len: nat, done: nat, o: nat -> Outcome)
    requires done < len && done % DATA_MAX == 0 && o(done / DATA_MAX).Completed?
    ensures (forall k: nat :: done <= k * DATA_MAX < len ==> o(k).Completed?)
            <==> forall k: nat :: done + Chunk(len, done) <= k * DATA_MAX < len ==> o(k).Completed?
  {
  }

  /** One byte written at LBA 2^48 overwrites sector 0. */
  lemma WriteAtTheLimit(d: Drive)
    requires d.Ok() && 0 in d.disk
    ensures var r := WriteFrom(d, LBA48, [7], 0, _ => Completed);
            r.0 && r.1.disk[0] == SectorOf([7], 0) && r.1.disk[0][0] == 7
  {
    hide WriteFrom;
    var o: nat -> Outcome := _ => Completed;
    WriteWraps(d, LBA48, [7], 0, o);
    WriteSucceeds(d, 0, [7], 0, o);
    WriteLands(d, 0, [7], o);
  }

  // ---------- 4 KiB blocks ----------

  const BLOCK := 4096

  /** Byte i of block b. */
  ghost function BlockByte(disk: Disk, b: nat, i: nat): Option<byte>
    requires i < BLOCK
  {
    if b * 8 + i / 512 in disk then Some(disk[b * 8 + i / 512][i % 512]) else None
  }

  function WriteBlocks(d: Drive, start: u64, count: nat, buf: seq<byte>, o: nat -> Outcome): (r: (bool, Drive))
    requires d.Ok() && count * BLOCK <= |buf|
    ensures r.1.Ok()
  {
    WriteFrom(d, start * 8 % U64, buf[..count * BLOCK], 0, o)
  }

  function ReadBlocks(d: Drive, start: u64, count: nat, buf: seq<byte>, o: nat -> Outcome): (r: (bool, Drive, seq<byte>))
    requires d.Ok() && count * BLOCK <= |buf|
    ensures r.1.Ok() && |r.2| == |buf|
  {
    var r := ReadFrom(d, start * 8 % U64, buf[..count * BLOCK], 0, o);
    (r.0, r.1, r.2 + buf[count * BLOCK..])
  }

  /** On a disk of `sectors` sectors every request within its sectors / 8 blocks is addressable
      and succeeds unless the device fails a command; a written block holds its 4096 bytes and
      every other block is as it was. */
  lemma WriteBlocksLand(d: Drive, sectors: nat, start: u64, count: nat, buf: seq<byte>, o: nat -> Outcome)
    requires d.Ok() && sectors <= LBA48 && (forall s :: s in d.disk <==> 0 <= s < sectors)
    requires count * BLOCK <= |buf| && start + count <= sectors / 8
    ensures var r := WriteBlocks(d, start, count, buf, o);
            && (r.0 <==> forall k: nat :: k * DATA_MAX < count * BLOCK ==> o(k).Completed?)
            && (r.0 ==> forall b: nat, i :: 0 <= i < BLOCK ==>
                  BlockByte(r.1.disk, b, i)
                  == if start <= b < start + count then Some(buf[(b - start) * BLOCK + i]) else BlockByte(d.disk, b, i))
  {
    hide WriteFrom;
    var data, lba := buf[..count * BLOCK], start * 8;
    assert Sectors(|data|) == count * 8;
    WriteSucceeds(d, lba, data, 0, o);
    var r := WriteFrom(d, lba, data, 0, o);
    if r.0 {
      WriteLands(d, lba, data, o);
      forall b: nat, i | 0 <= i < BLOCK
        ensures BlockByte(r.1.disk, b, i)
                == if start <= b < start + count then Some(buf[(b - start) * BLOCK + i]) else BlockByte(d.disk, b, i)
      {
        LandedBlock(d.disk, r.1.disk, start, count, buf, sectors, b, i);
      }
    }
  }

  lemma LandedBlock(before: Disk, after: Disk, start: nat, count: nat, buf: seq<byte>, sectors: nat, b: nat, i: nat)
    requires count * BLOCK <= |buf| && start + count <= sectors / 8 && i < BLOCK
    requires forall s :: s in before <==> 0 <= s < sectors
    requires Landed(before, after, start * 8, buf[..count * BLOCK], 0, count * 8, count * 8)
    ensures BlockByte(after, b, i)
            == if start <= b < start + count then Some(buf[(b - start) * BLOCK + i]) else BlockByte(before, b, i)
  {
    var s := b * 8 + i / 512;
    assert s in after <==> s in before;
    if start <= b < start + count {
      var k := s - start * 8;
      assert after[s] == SectorOf(buf[..count * BLOCK], k);
      assert 512 * k + i % 512 == (b - start) * BLOCK + i;
    }
  }

  /** Blocks read back are the blocks written; the rest of the buffer is not touched. */
  lemma BlocksRoundTrip(d: Drive, start: u64, count: nat, buf: seq<byte>, into: seq<byte>, o: nat -> Outcome, q: nat -> Outcome)
    requires d.Ok() && count * BLOCK <= |buf| && count * BLOCK <= |into| && start * 8 + count * 8 <= LBA48
    requires WriteBlocks(d, start, count, buf, o).0
    requires ReadBlocks(WriteBlocks(d, start, count, buf, o).1, start, count, into, q).0
    ensures ReadBlocks(WriteBlocks(d, start, count, buf, o).1, start, count, into, q).2
            == buf[..count * BLOCK] + into[count * BLOCK..]
  {
    hide WriteFrom, ReadFrom;
    assert Sectors(count * BLOCK) == count * 8;
    WriteThenRead(d, start * 8, buf[..count * BLOCK], into[..count * BLOCK], o, q);
  }
}

/** The driver's in-place encoding and chunk loops (kernel/src/ahci.rs). */
module AhciDriver {
  import opened Common
  import opened Bytes
  import opened AhciCommand
  import opened AhciTransfer

  class AhciDisk {
    const ctba: u64
    const data: u64
    const header: array<u32>
    const fis: array<byte>
    const prdt: array<u32>
    const window: array<byte>
    var disk: Disk

    ghost predicate Valid()
      reads this
    {
      && header.Length == 4 && fis.Length == 64 && prdt.Length == 4 && window.Length == DATA_MAX
      && header != prdt && fis != window
    }

    ghost function Abs(): Drive
      reads this, window
    {
      Drive(disk, window[..], ctba, data)
    }

    constructor (ctba: u64, data: u64, disk: Disk)
      ensures Valid() && Abs() == Drive(disk, Zeros(DATA_MAX), ctba, data)
      ensures fresh(header) && fresh(fis) && fresh(prdt) && fresh(window)
    {
      this.ctba, this.data, this.disk := ctba, data, disk;
      header := new u32[4](_ => 0);
      fis := new byte[64](_ => 0);
      prdt := new u32[4](_ => 0);
      window := new byte[DATA_MAX](_ => 0);
      new;
      assert window[..] == Zeros(DATA_MAX);
    }

    method FillHeader(write: bool)
      requires Valid()
      modifies header
      ensures header[..] == Header(ctba, write)
    {
      header[0] := 5 + (if write then 64 else 0) + 65536;
      header[1] := 0;
      header[2] := ctba % U32;
      header[3] := ctba / U32;
    }

    method FillFis(ata: byte, lba: u64, count: u16)
      requires Valid()
      modifies fis
      ensures fis[..] == Fis(ata, lba, count)
    {
      for i := 0 to 64
        invariant forall k :: 0 <= k < i ==> fis[k] == 0
      {
        fis[i] := 0;
      }
      PutAddress(ata, lba, count);
      fis[0] := 0x27;
      fis[1] := 0x80;
      fis[2] := ata;
      fis[7] := 0x40;
      fis[12] := count % 256;
      fis[13] := count / 256;
    }

    predicate Address(i: nat) {
      4 <= i <= 6 || 8 <= i <= 10
    }

    method PutAddress(ata: byte, lba: u64, count: u16)
      requires Valid()
      modifies fis
      ensures forall k :: 0 <= k < 64 ==> fis[k] == if Address(k) then FisByte(ata, lba, count, k) else old(fis[k])
    {
      fis[4] := lba % 256;
      fis[5] := lba / 0x100 % 256;
      fis[6] := lba / 0x1_0000 % 256;
      fis[8] := lba / 0x100_0000 % 256;
      fis[9] := lba / 0x1_0000_0000 % 256;
      fis[10] := lba / 0x100_0000_0000 % 256;
    }

    method FillPrdt(bytes: nat)
      requires Valid() && 1 <= bytes <= 0x40_0000
      modifies prdt
      ensures prdt[..] == Prdt(data, bytes, old(prdt[2]))
    {
      prdt[0] := data % U32;
      prdt[1] := data / U32;
      prdt[3] := bytes - 1;
    }

    /** The device's side: read the structures, move the sectors, answer. */
    method DeviceActs(o: Outcome) returns (ok: bool)
      requires Valid()
      modifies this`disk, window
      ensures match Decode(Table(header[..], fis[..], prdt[..]))
              case None => !ok && Abs() == old(Abs())
              case Some(c) => (ok, Abs()) == Device(old(Abs()), c, o)
    {
      hide Decode, Device;
      var c := Decode(Table(header[..], fis[..], prdt[..]));
      if c.None? {
        return false;
      }
      ghost var before := Abs();
      var r := Device(Drive(disk, window[..], ctba, data), c.value, o);
      DeviceStays(before, c.value, o);
      disk := r.1.disk;
      for i := 0 to DATA_MAX
        invariant disk == r.1.disk && window[..i] == r.1.window[..i]
      {
        window[i] := r.1.window[i];
      }
      assert window[..] == r.1.window;

      return r.0;
    }

    method Command(write: bool, lba: u64, nsec: nat, o: Outcome) returns (ok: bool)
      requires Valid() && 1 <= nsec <= 128
      modifies this`disk, header, fis, prdt, window
      ensures (ok, Abs()) == Issue(old(Abs()), write, lba, nsec, o)
    {
      hide Decode, Header, Fis, Prdt, Device;
      var ata := if write then WRITE_DMA_EXT else READ_DMA_EXT;
      FillHeader(write);
      FillFis(ata, lba, nsec);
      ghost var was := prdt[2];
      FillPrdt(nsec * 512);
      DecodesBack(ctba, data, ata, lba, nsec, nsec * 512, write, was);
      DecodesBack(ctba, data, ata, lba, nsec, nsec * 512, write, 0);
      ok := DeviceActs(o);
    }

    method CopyChunk(buf: array<byte>, done: nat, n: nat)
      requires Valid() && buf != window && done + n <= buf.Length && n <= DATA_MAX
      modifies window
      ensures window[..] == buf[done..done + n] + old(window[n..])
    {
      for i := 0 to n
        invariant window[..i] == buf[done..done + i] && window[i..] == old(window[i..])
      {
        window[i] := buf[done + i];
      }
      assert window[..] == window[..n] + window[n..];
    }

    method ClearTail(n: nat, end: nat)
      requires Valid() && n <= end <= DATA_MAX
      modifies window
      ensures window[..] == old(window[..n]) + Zeros(end - n) + old(window[end..])
    {
      for i := n to end
        invariant window[..n] == old(window[..n]) && window[i..] == old(window[i..])
        invariant forall k :: n <= k < i ==> window[k] == 0
      {
        window[i] := 0;
      }
      assert window[n..end] == Zeros(end - n);
      assert window[..] == window[..n] + window[n..end] + window[end..];
    }

    /** Copy a chunk of the caller's buffer into the window and zero the rest of its last sector. */
    method LoadWindow(buf: array<byte>, done: nat, n: nat)
      requires Valid() && buf != window && done + n <= buf.Length && n <= DATA_MAX
      modifies window
      ensures window[..] == Loaded(old(window[..]), buf[done..done + n])
    {
      WholeSectors(n);
      hide Sectors;
      ghost var was, chunk := window[..], buf[done..done + n];
      var end := Sectors(n) * 512;
      CopyChunk(buf, done, n);
      ghost var copied := window[..];
      assert copied[..n] == chunk && copied[end..] == was[end..];
      if n % 512 != 0 {
        ClearTail(n, end);
      }
      assert window[..] == chunk + Zeros(end - n) + was[end..];
    }

    method WriteSectors(lba: u64, buf: array<byte>, o: nat -> Outcome) returns (ok: bool)
      requires Valid() && buf != window && buf != fis
      modifies this`disk, header, fis, prdt, window
      ensures (ok, Abs()) == WriteFrom(old(Abs()), lba, buf[..], 0, o)
    {
      hide Issue, Loaded, At;
      var done := 0;
      while done < buf.Length
        invariant done <= buf.Length
        invariant WriteFrom(Abs(), lba, buf[..], done, o) == WriteFrom(old(Abs()), lba, buf[..], 0, o)
      {
        var n := Min(buf.Length - done, DATA_MAX);
        SectorsOfChunk(n);
        ghost var before := Abs();
        LoadWindow(buf, done, n);
        assert buf[done..done + n] == buf[..][done..done + n];
        assert Abs() == before.(window := Loaded(before.window, buf[..][done..done + n]));
        ok := Command(true, At(lba, done), Sectors(n), o(done / DATA_MAX));
        if !ok {
          return;
        }
        done := done + n;
      }
      ok := true;
    }

    method ReadSectors(lba: u64, buf: array<byte>, o: nat -> Outcome) returns (ok: bool)
      requires Valid() && buf != window && buf != fis
      modifies this`disk, header, fis, prdt, window, buf
      ensures (ok, Abs(), buf[..]) == ReadFrom(old(Abs()), lba, old(buf[..]), 0, o)
    {
      hide Issue, At;
      var done := 0;
      while done < buf.Length
        invariant done <= buf.Length
        invariant ReadFrom(Abs(), lba, buf[..], done, o) == ReadFrom(old(Abs()), lba, old(buf[..]), 0, o)
      {
        var n := Min(buf.Length - done, DATA_MAX);
        SectorsOfChunk(n);
        ok := Command(false, At(lba, done), Sectors(n), o(done / DATA_MAX));
        if !ok {
          return;
        }
        ghost var was := buf[..];
        CopyOut(buf, done, n);
        assert buf[..] == was[..done] + window[..n] + was[done + n..];
        done := done + n;
      }
      ok := true;
    }

    method CopyOut(buf: array<byte>, done: nat, n: nat)
      requires Valid() && buf != window && done + n <= buf.Length && n <= DATA_MAX
      modifies buf
      ensures buf[..] == old(buf[..done]) + window[..n] + old(buf[done + n..])
    {
      for i := 0 to n
        invariant buf[..done] == old(buf[..done]) && buf[done + i..] == old(buf[done + i..])
        invariant forall k :: 0 <= k < i ==> buf[done + k] == window[k]
      {
        buf[done + i] := window[i];
      }
      assert buf[done..done + n] == window[..n];
      assert buf[..] == buf[..done] + buf[done..done + n] + buf[done + n..];
    }
  }

  lemma WholeSectors(n: nat)
    requires n <= DATA_MAX
    ensures n <= Sectors(n) * 512 <= DATA_MAX && (n % 512 == 0 ==> Sectors(n) * 512 == n)
  {
  }

  lemma DeviceStays(d: Drive, c: Command, o: Outcome)
    requires d.Ok()
    ensures Device(d, c, o).1.ctba == d.ctba && Device(d, c, o).1.data == d.data
  {
  }
}
