/**
 * The archive a deployment sends: what each entry becomes, the whole as bytes,
 * the in-place code that writes it, and the proof that a reader of the format
 * recovers every entry.
 */
module TarArchive {
  import opened Options
  import opened Text
  import opened Digits
  import opened Utf8
  import opened Pax
  import opened TarFormat

  datatype Entry =
    | Directory(path: string, mtime: real)
    | File(path: string, mtime: real, executable: bool, content: seq<byte>)

  // --- one header reads back -------------------------------------------------

  lemma DigitsThenEnd(digits: seq<byte>, ends: seq<byte>)
    requires ends != [] && (ends[0] == 0 || ends[0] == SPACE) && 0 !in digits && SPACE !in digits
    requires digits != [] && AllDigits(AsText(digits)) && DigitsOf(AsText(digits), 8)
    ensures ReadOctal(digits + ends) == Some(Value(AsText(digits), 8))
  {
    var field := digits + ends;
    var end, stop := IndexOf(field, 0), IndexOf(field, SPACE);
    assert field == digits + [ends[0]] + ends[1..];
    IndexOfFirst(digits, ends[0], ends[1..]);
    assert forall i | 0 <= i < |digits| :: field[i] == digits[i];
    assert end >= |digits| && stop >= |digits|;
    assert field[..|digits|] == digits;
  }

  lemma OctalDigits(n: nat, width: nat)
    requires width >= 2 && FitsOctal(n, width)
    ensures var d := Encode(Padded(n, 8, width - 1));
      && Octal(n, width) == d + [0]
      && d != [] && 0 !in d && SPACE !in d
      && AllDigits(AsText(d)) && DigitsOf(AsText(d), 8) && Value(AsText(d), 8) == n
  {
    var s := Padded(n, 8, width - 1);
    EncodeAscii(s);
    AsTextOfEncode(s);
    ValueOfPadded(n, 8, width - 1);
  }

  /** A number field reads back, whatever stands after its NUL. */
  lemma OctalReadsBack(n: nat, width: nat, rest: seq<byte>)
    requires width >= 2 && FitsOctal(n, width)
    ensures ReadOctal(Octal(n, width) + rest) == Some(n)
  {
    var d := Encode(Padded(n, 8, width - 1));
    OctalDigits(n, width);
    NulThen(d, rest);
    DigitsThenEnd(d, [0] + rest);
  }

  lemma NulThen(d: seq<byte>, rest: seq<byte>)
    ensures (d + [0]) + rest == d + ([0] + rest)
  {
  }

  lemma OctalFieldReadsBack(n: nat, width: nat)
    requires width >= 2 && FitsOctal(n, width)
    ensures ReadOctal(Octal(n, width)) == Some(n)
  {
    OctalReadsBack(n, width, []);
    assert Octal(n, width) + [] == Octal(n, width);
  }

  lemma UpToNulOfField(name: seq<byte>)
    requires |name| <= 100
    ensures UpToNul(Field(name, 100)) == UpToNul(name)
  {
    var i := IndexOf(name, 0);
    var field := Field(name, 100);
    if i < |name| {
      assert field == name[..i] + [0] + field[i + 1..];
    } else if |name| < 100 {
      assert field == name[..i] + [0] + field[i + 1..];
    }
    if i < 100 {
      IndexOfFirst(name[..i], 0, field[i + 1..]);
    } else {
      assert field == name;
    }
  }

  lemma HeaderSlices(head: seq<byte>, c: seq<byte>, tail: seq<byte>)
    requires |head| == 148 && |c| == 8 && |tail| == 356
    ensures var h := head + c + tail;
      && h[..148] == head && h[148..156] == c && h[156..] == tail && h[156] == tail[0]
      && h[0..100] == head[0..100] && h[100..108] == head[100..108]
      && h[124..136] == head[124..136] && h[136..148] == head[136..148]
      && h[257..263] == tail[101..107] && h[263..265] == tail[107..109] && h[345..500] == tail[189..344]
  {
  }

  lemma UpToNulOfZeros(z: seq<byte>)
    requires z == [] || z[0] == 0
    ensures UpToNul(z) == []
  {
  }

  lemma ChecksumReadsBack(sum: nat)
    requires sum <= 255 * BLOCK
    ensures ReadOctal(Checksum(sum)) == Some(sum)
  {
    assert Pow(8, 2) == 8 * Pow(8, 1) == 64;
    assert Pow(8, 4) == 8 * Pow(8, 3) == 64 * Pow(8, 2);
    assert Pow(8, 6) == 8 * Pow(8, 5) == 64 * Pow(8, 4) == 262144;
    OctalReadsBack(sum, 7, [SPACE]);
  }

  /** Every header the writer makes passes its own checksum. */
  lemma HeaderPassesChecksum(name: seq<byte>, kind: byte, mode: nat, size: nat, mtime: nat)
    requires |name| <= 100 && FitsOctal(mode, 8) && FitsOctal(size, 12) && FitsOctal(mtime, 12)
    ensures ChecksumHolds(HeaderBytes(name, kind, mode, size, mtime))
  {
    var head, tail := Head(name, mode, size, mtime), Tail(kind);
    var blank := head + SpaceBytes(8) + tail;
    SumBound(blank);
    HeaderSlices(head, Checksum(Sum(blank)), tail);
    ChecksumReadsBack(Sum(blank));
  }

  lemma TailHasNoPrefix(kind: byte)
    ensures UpToNul(Tail(kind)[189..344]) == []
  {
    var t := Tail(kind);
    assert t[189] == t[173..356][16] == 0;
    UpToNulOfZeros(t[189..344]);
  }

  /** And reads back: the name up to its first NUL, and every number. */
  lemma HeaderReadsBack(name: seq<byte>, kind: byte, mode: nat, size: nat, mtime: nat)
    requires |name| <= 100 && FitsOctal(mode, 8) && FitsOctal(size, 12) && FitsOctal(mtime, 12)
    ensures ReadHeader(HeaderBytes(name, kind, mode, size, mtime)) ==
      Some(Header(UpToNul(name), mode, size, mtime, kind))
    ensures HeaderBytes(name, kind, mode, size, mtime) != ZeroBytes(BLOCK)
  {
    var head, tail := Head(name, mode, size, mtime), Tail(kind);
    var blank := head + SpaceBytes(8) + tail;
    SumBound(blank);
    var c := Checksum(Sum(blank));
    var h := HeaderBytes(name, kind, mode, size, mtime);
    assert h == head + c + tail;
    HeaderPassesChecksum(name, kind, mode, size, mtime);
    HeaderSlices(head, c, tail);
    OctalFieldReadsBack(mode, 8);
    OctalFieldReadsBack(size, 12);
    OctalFieldReadsBack(mtime, 12);
    UpToNulOfField(name);
    TailHasNoPrefix(kind);
    assert tail[0..1] == [kind] && tail[0] == tail[0..1][0];
    assert h[257] == h[257..263][0] == 117;
  }

  // --- what an entry becomes -------------------------------------------------

  /** Math.max(0, Math.floor(value)) */
  function Seconds(time: real): nat {
    if time.Floor < 0 then 0 else time.Floor
  }

  /** The path as the archive carries it: a directory's ends in one slash. */
  function PathOf(e: Entry): string {
    if e.Directory? then StripSlashes(e.path) + "/" else e.path
  }

  /** Too long for the name field: it travels in an extended header. */
  predicate Long(e: Entry) {
    |Encode(PathOf(e))| > 100
  }

  /** The UTF-16 units of a path, those past ASCII replaced by an underscore each. */
  function Underscored(path: string): (r: string)
    ensures Ascii(r)
  {
    if path == "" then ""
    else
      var c := path[0];
      (if c < '\U{80}' then [c] else if c <= '\U{FFFF}' then "_" else "__") + Underscored(path[1..])
  }

  /** The name a reader that ignores extended headers sees: ninety units at most. */
  function FallbackName(path: string): (r: string)
    ensures Ascii(r) && |r| <= 90
  {
    var units := Underscored(path);
    if |units| <= 90 then units else units[..90]
  }

  function NameOf(e: Entry): string {
    if Long(e) then FallbackName(PathOf(e)) else PathOf(e)
  }

  lemma NameFits(e: Entry)
    ensures |Encode(NameOf(e))| <= 100
  {
    EncodeAscii(FallbackName(PathOf(e)));
  }

  ghost function PaxBytes(e: Entry): seq<byte> {
    Encode(Record("path", PathOf(e)))
  }

  function ContentOf(e: Entry): seq<byte> {
    if e.Directory? then [] else e.content
  }

  /** Every number of the entry fits its octal field. */
  ghost predicate Fits(e: Entry) {
    && FitsOctal(Seconds(e.mtime), 12)
    && FitsOctal(|ContentOf(e)|, 12)
    && (Long(e) ==> FitsOctal(|PaxBytes(e)|, 12))
  }

  const MODE_PLAIN: nat := 420
  const MODE_EXECUTABLE: nat := 493

  lemma ModesFit()
    ensures FitsOctal(MODE_PLAIN, 8) && FitsOctal(MODE_EXECUTABLE, 8) && FitsOctal(0, 8)
  {
    assert Pow(8, 2) == 8 * Pow(8, 1) == 64;
    assert Pow(8, 4) == 8 * Pow(8, 3) == 64 * Pow(8, 2);
    assert Pow(8, 7) == 8 * Pow(8, 6) && Pow(8, 6) == 64 * Pow(8, 4);
  }

  function ModeOf(e: Entry): (m: nat)
    ensures FitsOctal(m, 8)
  {
    ModesFit();
    if e.Directory? || e.executable then MODE_EXECUTABLE else MODE_PLAIN
  }

  function KindOf(e: Entry): byte {
    if e.Directory? then TYPE_FOLDER else TYPE_FILE
  }

  function PadToBlock(data: seq<byte>): (p: seq<byte>)
    ensures |p| == RoundUp(|data|)
  {
    data + ZeroBytes(RoundUp(|data|) - |data|)
  }

  function Section(name: seq<byte>, kind: byte, mode: nat, mtime: nat, data: seq<byte>): (s: seq<byte>)
    requires |name| <= 100 && FitsOctal(mode, 8) && FitsOctal(|data|, 12) && FitsOctal(mtime, 12)
    ensures |s| == BLOCK + RoundUp(|data|)
  {
    HeaderBytes(name, kind, mode, |data|, mtime) + PadToBlock(data)
  }

  const PAX_NAME: string := "PaxHeader"

  lemma PaxHeaderFits()
    ensures |Encode(PAX_NAME)| <= 100 && FitsOctal(MODE_PLAIN, 8)
  {
    EncodeAscii(PAX_NAME);
    ModesFit();
  }

  /** The extended header of an entry whose path is long. */
  ghost function PaxSection(e: Entry): seq<byte>
    requires Fits(e) && Long(e)
  {
    PaxHeaderFits();
    Section(Encode(PAX_NAME), TYPE_PAX, MODE_PLAIN, Seconds(e.mtime), PaxBytes(e))
  }

  ghost function MainSection(e: Entry): seq<byte>
    requires Fits(e)
  {
    NameFits(e);
    Section(Encode(NameOf(e)), KindOf(e), ModeOf(e), Seconds(e.mtime), ContentOf(e))
  }

  ghost function EntryBytes(e: Entry): (b: seq<byte>)
    requires Fits(e)
  {
    if Long(e) then PaxSection(e) + MainSection(e) else MainSection(e)
  }

  ghost predicate AllFit(es: seq<Entry>) {
    forall i | 0 <= i < |es| :: Fits(es[i])
  }

  ghost function EntriesBytes(es: seq<Entry>): (b: seq<byte>)
    requires AllFit(es)
  {
    if es == [] then [] else EntryBytes(es[0]) + EntriesBytes(es[1..])
  }

  /** Every entry, then two empty blocks. */
  ghost function Archive(es: seq<Entry>): (b: seq<byte>)
    requires AllFit(es)
    ensures |b| >= 2 * BLOCK && b[|b| - 2 * BLOCK..] == ZeroBytes(2 * BLOCK)
  {
    EntriesBytes(es) + ZeroBytes(2 * BLOCK)
  }

  lemma {:induction false} EntriesAreWholeBlocks(es: seq<Entry>) returns (n: nat)
    requires AllFit(es)
    ensures |EntriesBytes(es)| == BLOCK * n
  {
    if es == [] {
      n := 0;
    } else {
      var e := es[0];
      n := EntriesAreWholeBlocks(es[1..]);
      n := n + 1 + BlocksFor(|ContentOf(e)|) + if Long(e) then 1 + BlocksFor(|PaxBytes(e)|) else 0;
    }
  }

  lemma MultipleIsWhole(n: nat)
    ensures BLOCK * n % BLOCK == 0
  {
  }

  /** An archive is a whole number of blocks. */
  lemma ArchiveIsWholeBlocks(es: seq<Entry>)
    requires AllFit(es)
    ensures |Archive(es)| % BLOCK == 0
  {
    var n := EntriesAreWholeBlocks(es);
    MultipleIsWhole(n + 2);
  }

  // --- what a reader recovers ------------------------------------------------

  function CutAtNul(path: string): (r: string)
    ensures r <= path
    ensures r == path <==> '\0' !in path
  {
    if path == "" || path[0] == '\0' then ""
    else
      assert path == [path[0]] + path[1..];
      [path[0]] + CutAtNul(path[1..])
  }

  /** A path in an extended header comes back whole; one in the name field stops at its first NUL. */
  function RecoveredPath(e: Entry): string {
    var path := if Long(e) then PathOf(e) else CutAtNul(PathOf(e));
    if e.Directory? then StripSlashes(path) else path
  }

  /** Read, write and execute, three bits each for the owner, the group and the others. */
  function Permissions(e: Entry): nat {
    var all, two, read := 4 + 2 + 1, 4 + 1, 4;
    if e.Directory? || e.executable then all * 64 + two * 8 + two else (4 + 2) * 64 + read * 8 + read
  }

  function Recovered(e: Entry): Member {
    var kind := if e.Directory? then Folder else Plain;
    Member(kind, RecoveredPath(e), Seconds(e.mtime), Permissions(e), ContentOf(e))
  }

  function RecoveredAll(es: seq<Entry>): (ms: seq<Member>)
    ensures |ms| == |es| && forall i | 0 <= i < |es| :: ms[i] == Recovered(es[i])
  {
    if es == [] then [] else [Recovered(es[0])] + RecoveredAll(es[1..])
  }

  lemma {:induction false} StripOneSlash(path: string)
    requires path != "" ==> path[|path| - 1] != '/'
    ensures StripSlashes(path + "/") == path
  {
    assert (path + "/")[..|path|] == path;
  }

  /**
   * The path comes back as it was given, a directory's without its trailing
   * slashes, exactly when it is too long for the name field or holds no NUL.
   */
  lemma PathRecoveredExactly(e: Entry)
    ensures RecoveredPath(e) == (if e.Directory? then StripSlashes(e.path) else e.path) <==>
      Long(e) || '\0' !in (if e.Directory? then StripSlashes(e.path) else e.path)
  {
    if e.Directory? {
      var p := StripSlashes(e.path);
      StripOneSlash(p);
      assert '\0' in p + "/" <==> '\0' in p;
      var cut := CutAtNul(p + "/");
      if '\0' in p {
        assert cut != p + "/";
        CutStopsEarly(p);
      }
    }
  }

  lemma {:induction false} CutStopsEarly(p: string)
    requires '\0' in p
    ensures |CutAtNul(p + "/")| < |p|
  {
    var q := p + "/";
    if p[0] != '\0' {
      assert q[1..] == p[1..] + "/";
      CutStopsEarly(p[1..]);
    }
  }

  lemma {:induction false} UpToNulOfEncode(path: string)
    ensures UpToNul(Encode(path)) == Encode(CutAtNul(path))
  {
    if path == "" {
    } else if path[0] == '\0' {
      assert Encode(path)[0] == 0;
    } else {
      UpToNulOfEncode(path[1..]);
      NoZeroThen(EncodeChar(path[0]), Encode(path[1..]));
      assert ([path[0]] + CutAtNul(path[1..]))[1..] == CutAtNul(path[1..]);
    }
  }

  lemma {:induction false} NoZeroThen(a: seq<byte>, b: seq<byte>)
    requires 0 !in a
    ensures UpToNul(a + b) == a + UpToNul(b)
  {
    if a == [] {
      assert a + b == b;
    } else {
      assert (a + b)[1..] == a[1..] + b;
      NoZeroThen(a[1..], b);
      assert a[0] != 0;
      assert UpToNul(a + b) == [a[0]] + UpToNul(a[1..] + b);
    }
  }

  // --- a reader recovers the entries -----------------------------------------

  /** How the reader takes one section: its header, its data, and where the next one begins. */
  lemma SectionParts(header: seq<byte>, data: seq<byte>, rest: seq<byte>)
    requires |header| == BLOCK
    ensures var b := header + PadToBlock(data) + rest;
      && b[..BLOCK] == header
      && b[BLOCK..BLOCK + |data|] == data
      && b[BLOCK + RoundUp(|data|)..] == rest
      && |b| == BLOCK + RoundUp(|data|) + |rest|
  {
  }

  lemma ReadsSection(name: seq<byte>, kind: byte, mode: nat, mtime: nat, data: seq<byte>, rest: seq<byte>,
      pending: Option<seq<byte>>)
    requires |name| <= 100 && FitsOctal(mode, 8) && FitsOctal(|data|, 12) && FitsOctal(mtime, 12)
    requires kind != TYPE_PAX && |rest| >= 2 * BLOCK
    ensures var h := Header(UpToNul(name), mode, |data|, mtime, kind);
      ReadArchive(Section(name, kind, mode, mtime, data) + rest, pending) ==
      match ReadMember(h, if pending.Some? then pending.value else h.name, data)
      case None => None
      case Some(m) =>
        match ReadArchive(rest, None)
        case None => None
        case Some(ms) => Some([m] + ms)
  {
    HeaderReadsBack(name, kind, mode, |data|, mtime);
    SectionParts(HeaderBytes(name, kind, mode, |data|, mtime), data, rest);
  }

  lemma ReadsPaxAt(header: seq<byte>, h: Header, data: seq<byte>, path: seq<byte>, rest: seq<byte>)
    requires |header| == BLOCK && header != ZeroBytes(BLOCK) && ReadHeader(header) == Some(h)
    requires h.size == |data| && h.kind == TYPE_PAX && ReadRecords(data, PATH_KEY) == Some(Some(path))
      && |rest| >= 2 * BLOCK
    ensures ReadArchive(header + PadToBlock(data) + rest, None) == ReadArchive(rest, Some(path))
  {
    SectionParts(header, data, rest);
  }

  lemma ReadsPaxSection(name: seq<byte>, mode: nat, mtime: nat, data: seq<byte>, path: seq<byte>, rest: seq<byte>)
    requires |name| <= 100 && FitsOctal(mode, 8) && FitsOctal(|data|, 12) && FitsOctal(mtime, 12)
    requires |rest| >= 2 * BLOCK && ReadRecords(data, PATH_KEY) == Some(Some(path))
    ensures ReadArchive(Section(name, TYPE_PAX, mode, mtime, data) + rest, None) == ReadArchive(rest, Some(path))
  {
    HeaderReadsBack(name, TYPE_PAX, mode, |data|, mtime);
    ReadsPaxAt(HeaderBytes(name, TYPE_PAX, mode, |data|, mtime), Header(UpToNul(name), mode, |data|, mtime, TYPE_PAX),
      data, path, rest);
  }

  lemma PathKey()
    ensures Encode("path") == PATH_KEY && EQUALS !in PATH_KEY
  {
    EncodeAscii("path");
  }

  lemma PaxRecordReadsBack(path: string)
    ensures ReadRecords(Encode(Record("path", path)), PATH_KEY) == Some(Some(Encode(path)))
  {
    PathKey();
    var data := Encode(Record("path", path));
    RecordReadsBack("path", path, []);
    assert data + [] == data;
    assert data[|data|..] == [];
  }

  lemma ModeIsPermissions(e: Entry)
    ensures ModeOf(e) == Permissions(e)
  {
  }

  lemma NameDecodes(e: Entry, name: seq<byte>)
    requires if Long(e) then name == Encode(PathOf(e)) else name == UpToNul(Encode(NameOf(e)))
    ensures Decode(name) == Some(if Long(e) then PathOf(e) else CutAtNul(PathOf(e)))
  {
    if Long(e) {
      DecodeEncode(PathOf(e));
    } else {
      UpToNulOfEncode(PathOf(e));
      DecodeEncode(CutAtNul(PathOf(e)));
    }
  }

  lemma MemberReadsBack(e: Entry, name: seq<byte>)
    requires if Long(e) then name == Encode(PathOf(e)) else name == UpToNul(Encode(NameOf(e)))
    ensures var h := Header(UpToNul(Encode(NameOf(e))), ModeOf(e), |ContentOf(e)|, Seconds(e.mtime), KindOf(e));
      ReadMember(h, name, ContentOf(e)) == Some(Recovered(e))
  {
    ModeIsPermissions(e);
    NameDecodes(e, name);
  }

  lemma Reassociate(a: seq<byte>, b: seq<byte>, c: seq<byte>)
    ensures a + b + c == a + (b + c)
  {
  }

  lemma ReadsMain(e: Entry, rest: seq<byte>)
    requires Fits(e) && |rest| >= 2 * BLOCK
    ensures ReadArchive(MainSection(e) + rest, if Long(e) then Some(Encode(PathOf(e))) else None) ==
      match ReadArchive(rest, None)
      case None => None
      case Some(ms) => Some([Recovered(e)] + ms)
  {
    NameFits(e);
    var pending := if Long(e) then Some(Encode(PathOf(e))) else None;
    MemberReadsBack(e, if Long(e) then Encode(PathOf(e)) else UpToNul(Encode(NameOf(e))));
    ReadsSection(Encode(NameOf(e)), KindOf(e), ModeOf(e), Seconds(e.mtime), ContentOf(e), rest, pending);
  }

  lemma ReadsPax(e: Entry, rest: seq<byte>)
    requires Fits(e) && Long(e) && |rest| >= 2 * BLOCK
    ensures ReadArchive(PaxSection(e) + rest, None) == ReadArchive(rest, Some(Encode(PathOf(e))))
  {
    PaxHeaderFits();
    PaxRecordReadsBack(PathOf(e));
    var name, data, path := Encode(PAX_NAME), PaxBytes(e), Encode(PathOf(e));
    assert PaxSection(e) == Section(name, TYPE_PAX, MODE_PLAIN, Seconds(e.mtime), data);
    ReadsPaxSection(name, MODE_PLAIN, Seconds(e.mtime), data, path, rest);
  }

  lemma ReadsEntry(e: Entry, rest: seq<byte>)
    requires Fits(e) && |rest| >= 2 * BLOCK
    ensures ReadArchive(EntryBytes(e) + rest, None) ==
      match ReadArchive(rest, None)
      case None => None
      case Some(ms) => Some([Recovered(e)] + ms)
  {
    ReadsMain(e, rest);
    if Long(e) {
      ReadsPax(e, MainSection(e) + rest);
      Reassociate(PaxSection(e), MainSection(e), rest);
    }
  }

  /** Two zero blocks are the end of an archive. */
  lemma EndReadsEmpty()
    ensures ReadArchive(ZeroBytes(2 * BLOCK), None) == Some([])
  {
    var b := ZeroBytes(2 * BLOCK);
    assert b[..BLOCK] == ZeroBytes(BLOCK) && b[BLOCK..2 * BLOCK] == ZeroBytes(BLOCK);
  }

  /**
   * A reader of the format recovers exactly the entries, in order: kind, path,
   * time, permissions and content.
   */
  lemma {:induction false} ArchiveReadsBack(es: seq<Entry>)
    requires AllFit(es)
    ensures ReadArchive(Archive(es), None) == Some(RecoveredAll(es))
  {
    if es == [] {
      EndReadsEmpty();
      assert Archive(es) == ZeroBytes(2 * BLOCK);
    } else {
      ArchiveReadsBack(es[1..]);
      ReadsEntry(es[0], Archive(es[1..]));
      Reassociate(EntryBytes(es[0]), EntriesBytes(es[1..]), ZeroBytes(2 * BLOCK));
    }
  }

  // --- the header's own fields -----------------------------------------------

  lemma OctalIs(n: nat, width: nat, text: string)
    requires width >= 2 && FitsOctal(n, width) && Padded(n, 8, width - 1) == text
    ensures Octal(n, width) == Encode(text) + [0]
  {
  }

  lemma ModeTexts()
    ensures Padded(493, 8, 7) == "0000755" && Padded(420, 8, 7) == "0000644" && Padded(0, 8, 7) == "0000000"
  {
    assert Print(7, 8) == "7" && Print(61, 8) == "75" && Print(493, 8) == "755";
    assert Print(6, 8) == "6" && Print(52, 8) == "64" && Print(420, 8) == "644";
    assert Print(0, 8) == "0";
    assert Zeros(4) == "0000" && Zeros(6) == "000000";
  }

  lemma OwnFields(name: seq<byte>, kind: byte, mode: nat, size: nat, mtime: nat)
    requires |name| <= 100 && FitsOctal(mode, 8) && FitsOctal(size, 12) && FitsOctal(mtime, 12)
    ensures var h := HeaderBytes(name, kind, mode, size, mtime);
      && h[100..108] == Octal(mode, 8) && h[108..116] == Octal(0, 8) && h[116..124] == Octal(0, 8)
      && h[156] == kind && h[257..263] == USTAR && h[263..265] == [48, 48]
      && h[265..297] == Field(ROOT, 32) && h[297..329] == Field(ROOT, 32)
  {
    var head, tail := Head(name, mode, size, mtime), Tail(kind);
    var h := HeaderBytes(name, kind, mode, size, mtime);
    assert h[..148] == head && h[156..] == tail;
    assert h[100..108] == head[100..108] && h[108..116] == head[108..116] && h[116..124] == head[116..124];
    assert h[156] == tail[0] && h[257..263] == tail[101..107] && h[263..265] == tail[107..109];
    assert h[265..297] == tail[109..141] && h[297..329] == tail[141..173];
    assert tail[0] == tail[0..1][0];
  }

  /** A header of root's, in the format's own characters. */
  predicate IsRootsHeader(h: seq<byte>, mode: string, kind: char)
    requires |h| == BLOCK
  {
    && h[100..107] == Encode(mode) && h[107] == 0
    && h[108..115] == h[116..123] == Encode("0000000") && h[115] == 0 && h[123] == 0
    && h[156] == kind as int
    && h[257..262] == Encode("ustar") && h[262] == 0 && h[263..265] == Encode("00")
    && h[265..269] == h[297..301] == Encode("root") && h[269] == 0 && h[301] == 0
  }

  lemma FieldsAreTexts(h: seq<byte>, mode: string, kind: char)
    requires |h| == BLOCK && |Encode(mode)| == 7 && |Encode("0000000")| == 7 && h[156] == kind as int
    requires h[100..108] == Encode(mode) + [0]
    requires h[108..116] == Encode("0000000") + [0] && h[116..124] == Encode("0000000") + [0]
    requires h[257..263] == USTAR && h[263..265] == [48, 48]
    requires h[265..297] == Field(ROOT, 32) && h[297..329] == Field(ROOT, 32)
    ensures IsRootsHeader(h, mode, kind)
  {
    SevenDigits(h[100..108], mode);
    SevenDigits(h[108..116], "0000000");
    SevenDigits(h[116..124], "0000000");
    FixedTexts();
    assert h[257..262] == h[257..263][..5] && h[262] == h[257..263][5];
    assert h[265..269] == h[265..297][..4] && h[269] == h[265..297][4];
    assert h[297..301] == h[297..329][..4] && h[301] == h[297..329][4];
    assert h[100..107] == h[100..108][..7] && h[108..115] == h[108..116][..7] && h[116..123] == h[116..124][..7];
  }

  lemma SevenLong()
    ensures |Encode("0000755")| == 7 && |Encode("0000644")| == 7 && |Encode("0000000")| == 7
  {
    EncodeAscii("0000755");
    EncodeAscii("0000644");
    EncodeAscii("0000000");
  }

  /** An entry's header belongs to root, says what may be done with it and what it is. */
  lemma EntryHeaderFields(e: Entry)
    requires Fits(e)
    ensures IsRootsHeader(MainSection(e)[..BLOCK], if e.Directory? || e.executable then "0000755" else "0000644",
              if e.Directory? then '5' else '0')
  {
    NameFits(e);
    ModeTexts();
    SevenLong();
    ModesFit();
    var name, mode := Encode(NameOf(e)), if e.Directory? || e.executable then "0000755" else "0000644";
    var header := HeaderBytes(name, KindOf(e), ModeOf(e), |ContentOf(e)|, Seconds(e.mtime));
    OwnFields(name, KindOf(e), ModeOf(e), |ContentOf(e)|, Seconds(e.mtime));
    OctalIs(ModeOf(e), 8, mode);
    OctalIs(0, 8, "0000000");
    FieldsAreTexts(header, mode, if e.Directory? then '5' else '0');
    assert MainSection(e)[..BLOCK] == header;
  }

  lemma SevenDigits(field: seq<byte>, text: string)
    requires |field| == 8 && field == Encode(text) + [0]
    ensures field[..7] == Encode(text) && field[7] == 0
  {
  }

  lemma FixedTexts()
    ensures Encode("ustar") + [0] == USTAR && Encode("00") == [48, 48] && Encode("root") == ROOT
  {
    EncodeAscii("ustar");
    EncodeAscii("00");
    EncodeAscii("root");
  }

  /** A time before 1970 is written as its start, any other as the second it falls in. */
  lemma SecondsAre(time: real)
    ensures time < 0.0 ==> Seconds(time) == 0
    ensures time >= 0.0 ==> Seconds(time) as real <= time < Seconds(time) as real + 1.0
  {
  }

  lemma {:induction false} UnderscoredAt(path: string, i: nat)
    requires i < |path| && forall k | 0 <= k < |path| :: path[k] <= '\U{FFFF}'
    ensures |Underscored(path)| == |path|
    ensures Underscored(path)[i] == if path[i] < '\U{80}' then path[i] else '_'
  {
    if |path| > 1 {
      UnderscoredAt(path[1..], if i > 0 then i - 1 else 0);
    }
  }

  /**
   * The name left to a reader that ignores extended headers is the path's first ninety
   * characters, those past ASCII underscored.
   */
  lemma FallbackNameAt(path: string, i: nat)
    requires i < |path| && i < 90 && forall k | 0 <= k < |path| :: path[k] <= '\U{FFFF}'
    ensures |FallbackName(path)| == if |path| <= 90 then |path| else 90
    ensures FallbackName(path)[i] == if path[i] < '\U{80}' then path[i] else '_'
  {
    UnderscoredAt(path, i);
  }
}
