/**
 * The ustar interchange format and the pax extended header (the pax utility,
 * IEEE Std 1003.1): one header block as bytes, and a reader of whole archives
 * written from the format rather than from the writer.
 */
module TarFormat {
  import opened Options
  import opened Text
  import opened Digits
  import opened Utf8
  import opened Pax

  const BLOCK: nat := 512

  function ZeroBytes(n: nat): (z: seq<byte>)
    ensures |z| == n && forall i | 0 <= i < n :: z[i] == 0
  {
    seq(n, i => 0)
  }

  function SpaceBytes(n: nat): (z: seq<byte>)
    ensures |z| == n && forall i | 0 <= i < n :: z[i] == SPACE
  {
    seq(n, i => SPACE)
  }

  function Sum(b: seq<byte>): nat {
    if b == [] then 0 else Sum(b[..|b| - 1]) + b[|b| - 1]
  }

  // --- reading one header ----------------------------------------------------

  /** A name field: up to its first NUL, or whole. */
  function UpToNul(field: seq<byte>): seq<byte> {
    field[..IndexOf(field, 0)]
  }

  /** A number field: octal digits ended by a NUL or a space. */
  function ReadOctal(field: seq<byte>): Option<nat> {
    var end := IndexOf(field, 0);
    var stop := IndexOf(field, SPACE);
    var text := AsText(field[..if end < stop then end else stop]);
    if text != "" && AllDigits(text) && DigitsOf(text, 8) then Some(Value(text, 8)) else None
  }

  datatype Header = Header(name: seq<byte>, mode: nat, size: nat, mtime: nat, kind: byte)

  /** The checksum counts the block's bytes, its own field taken as spaces. */
  predicate ChecksumHolds(block: seq<byte>)
    requires |block| == BLOCK
  {
    ReadOctal(block[148..156]) == Some(Sum(block[..148] + SpaceBytes(8) + block[156..]))
  }

  const USTAR: seq<byte> := [117, 115, 116, 97, 114, 0]

  function ReadHeader(block: seq<byte>): Option<Header>
    requires |block| == BLOCK
  {
    var mode, size, mtime := ReadOctal(block[100..108]), ReadOctal(block[124..136]), ReadOctal(block[136..148]);
    var prefix, name := UpToNul(block[345..500]), UpToNul(block[0..100]);
    if !ChecksumHolds(block) || block[257..263] != USTAR || block[263..265] != [48, 48] then None
    else if mode.None? || size.None? || mtime.None? then None
    else
      var path := if prefix == [] then name else prefix + [SLASH] + name;
      Some(Header(path, mode.value, size.value, mtime.value, block[156]))
  }

  // --- reading an archive ----------------------------------------------------

  datatype Kind = Folder | Plain

  /** An entry as a reader sees it. */
  datatype Member = Member(kind: Kind, path: string, mtime: nat, mode: nat, content: seq<byte>)

  const SLASH: byte := 47
  const TYPE_FILE: byte := 48
  const TYPE_FOLDER: byte := 53
  const TYPE_PAX: byte := 120

  function StripSlashes(path: string): (r: string)
    ensures r <= path
    ensures r != "" ==> r[|r| - 1] != '/'
  {
    if path != "" && path[|path| - 1] == '/' then StripSlashes(path[..|path| - 1]) else path
  }

  function BlocksFor(n: nat): nat {
    (n + BLOCK - 1) / BLOCK
  }

  function RoundUp(n: nat): (r: nat)
    ensures n <= r < n + BLOCK
  {
    BLOCK * BlocksFor(n)
  }

  function ReadMember(h: Header, name: seq<byte>, data: seq<byte>): Option<Member> {
    match Decode(name)
    case None => None
    case Some(path) =>
      if h.kind == TYPE_FILE then Some(Member(Plain, path, h.mtime, h.mode, data))
      else if h.kind == TYPE_FOLDER then Some(Member(Folder, StripSlashes(path), h.mtime, h.mode, []))
      else None
  }

  /**
   * The members of an archive. `pending` is the path an extended header gave
   * to the entry that follows it. The archive ends on two zero blocks.
   */
  function ReadArchive(b: seq<byte>, pending: Option<seq<byte>>): Option<seq<Member>>
    decreases |b|
  {
    if |b| < 2 * BLOCK then None
    else if b[..BLOCK] == ZeroBytes(BLOCK) then
      if b[BLOCK..2 * BLOCK] == ZeroBytes(BLOCK) && pending.None? then Some([]) else None
    else match ReadHeader(b[..BLOCK])
      case None => None
      case Some(h) =>
        if |b| < BLOCK + RoundUp(h.size) then None
        else
          var data := b[BLOCK..BLOCK + h.size];
          var rest := b[BLOCK + RoundUp(h.size)..];
          if h.kind == TYPE_PAX then
            match ReadRecords(data, PATH_KEY)
            case None => None
            case Some(path) => ReadArchive(rest, if path.Some? then path else pending)
          else
            match ReadMember(h, if pending.Some? then pending.value else h.name, data)
            case None => None
            case Some(m) =>
              match ReadArchive(rest, None)
              case None => None
              case Some(ms) => Some([m] + ms)
  }

  const PATH_KEY: seq<byte> := [112, 97, 116, 104]

  // --- one header as bytes ---------------------------------------------------

  /** A text in a field, zeros after it. */
  function Field(text: seq<byte>, width: nat): (f: seq<byte>)
    requires |text| <= width
    ensures |f| == width
  {
    text + ZeroBytes(width - |text|)
  }

  predicate FitsOctal(n: nat, width: nat)
    requires width >= 2
  {
    n < Pow(8, width - 1)
  }

  /** Zero-filled octal digits and a NUL. */
  function Octal(n: nat, width: nat): (f: seq<byte>)
    requires width >= 2 && FitsOctal(n, width)
    ensures |f| == width
  {
    LengthOfPadded(n, 8, width - 1);
    EncodeAscii(Padded(n, 8, width - 1));
    Encode(Padded(n, 8, width - 1)) + [0]
  }

  const ROOT: seq<byte> := [114, 111, 111, 116]

  /** What stands before the checksum: name, mode, owner, group, size, time. */
  function Head(name: seq<byte>, mode: nat, size: nat, mtime: nat): (h: seq<byte>)
    requires |name| <= 100 && FitsOctal(mode, 8) && FitsOctal(size, 12) && FitsOctal(mtime, 12)
    ensures |h| == 148
    ensures h[0..100] == Field(name, 100)
    ensures h[100..108] == Octal(mode, 8)
    ensures h[108..116] == Octal(0, 8) && h[116..124] == Octal(0, 8)
    ensures h[124..136] == Octal(size, 12) && h[136..148] == Octal(mtime, 12)
  {
    Field(name, 100) + Octal(mode, 8) + Octal(0, 8) + Octal(0, 8) + Octal(size, 12) + Octal(mtime, 12)
  }

  /** What stands after it: type, no link, magic, version, the two names, no device, no prefix. */
  function Tail(kind: byte): (t: seq<byte>)
    ensures |t| == 356
    ensures t[0..1] == [kind] && t[1..101] == ZeroBytes(100)
    ensures t[101..107] == USTAR && t[107..109] == [48, 48]
    ensures t[109..141] == Field(ROOT, 32) && t[141..173] == Field(ROOT, 32)
    ensures t[173..356] == ZeroBytes(183)
  {
    [kind] + ZeroBytes(100) + USTAR + [48, 48] + Field(ROOT, 32) + Field(ROOT, 32) + ZeroBytes(183)
  }

  lemma {:induction false} SumBound(b: seq<byte>)
    ensures Sum(b) <= 255 * |b|
  {
    if b != [] {
      SumBound(b[..|b| - 1]);
    }
  }

  /** Six octal digits, a NUL and a space. */
  function Checksum(sum: nat): (c: seq<byte>)
    requires sum <= 255 * BLOCK
    ensures |c| == 8
  {
    assert Pow(8, 2) == 8 * Pow(8, 1) == 64;
    assert Pow(8, 4) == 8 * Pow(8, 3) == 64 * Pow(8, 2);
    assert Pow(8, 6) == 8 * Pow(8, 5) == 64 * Pow(8, 4) == 262144;
    Octal(sum, 7) + [SPACE]
  }

  /** The whole block, and why its checksum fits. */
  function HeaderBytes(name: seq<byte>, kind: byte, mode: nat, size: nat, mtime: nat): (h: seq<byte>)
    requires |name| <= 100 && FitsOctal(mode, 8) && FitsOctal(size, 12) && FitsOctal(mtime, 12)
    ensures |h| == BLOCK
  {
    var head, tail := Head(name, mode, size, mtime), Tail(kind);
    SumBound(head + SpaceBytes(8) + tail);
    head + Checksum(Sum(head + SpaceBytes(8) + tail)) + tail
  }
}
