/** The code that writes the archive, buffer by buffer, proved to write the bytes of TarArchive. */
module TarWriter {
  import opened Options
  import opened Digits
  import opened Utf8
  import opened Pax
  import opened TarFormat
  import opened TarArchive

  /** A text written at an offset, refused when it does not fit its field. */
  method Put(block: array<byte>, offset: nat, text: string, width: nat) returns (ok: bool)
    requires offset + width <= block.Length
    modifies block
    ensures ok <==> |Encode(text)| <= width
    ensures !ok ==> block[..] == old(block[..])
    ensures ok ==> block[..] == old(block[..])[..offset] + Encode(text) + old(block[..])[offset + |Encode(text)|..]
  {
    var bytes := Encode(text);
    if |bytes| > width {
      return false;
    }
    ghost var was := block[..];
    forall i | 0 <= i < |bytes| {
      block[offset + i] := bytes[i];
    }
    assert |bytes| <= width && |was| == block.Length;
    SetAt(was, block[..], offset, bytes);
    return true;
  }

  /** Uint8Array.set: the bytes stand at the offset, the rest is as it was. */
  lemma SetAt(was: seq<byte>, now: seq<byte>, offset: nat, bytes: seq<byte>)
    requires |was| == |now| && offset + |bytes| <= |was|
    requires forall i | 0 <= i < |bytes| :: now[offset + i] == bytes[i]
    requires forall i | 0 <= i < |was| && (i < offset || offset + |bytes| <= i) :: now[i] == was[i]
    ensures now == was[..offset] + bytes + was[offset + |bytes|..]
  {
    var goal := was[..offset] + bytes + was[offset + |bytes|..];
    forall i | 0 <= i < |was| ensures now[i] == goal[i] {
      if offset <= i < offset + |bytes| { assert now[offset + (i - offset)] == bytes[i - offset]; }
    }
  }

  /** A field written where everything after it is still zero. */
  lemma PutExtends(done: seq<byte>, text: seq<byte>, width: nat, left: nat)
    requires |text| <= width <= left
    ensures (done + ZeroBytes(left))[..|done|] + text + (done + ZeroBytes(left))[|done| + |text|..]
      == (done + Field(text, width)) + ZeroBytes(left - width)
  {
  }

  /** octal: the field's text, refused when the digits leave no room for the NUL. */
  function OctalText(n: nat, width: nat): Option<string>
    requires width >= 2
  {
    if |Print(n, 8)| > width - 1 then None else Some(Padded(n, 8, width - 1) + "\0")
  }

  lemma OctalTextIsOctal(n: nat, width: nat)
    requires width >= 2
    ensures OctalText(n, width).Some? <==> FitsOctal(n, width)
    ensures OctalText(n, width).Some? ==> Encode(OctalText(n, width).value) == Octal(n, width)
  {
    LengthOfPrint(n, 8, width - 1);
    if FitsOctal(n, width) {
      EncodeAppend(Padded(n, 8, width - 1), "\0");
      assert Encode("\0") == [0];
    }
  }

  /** A field written next to the ones already there; `ok` says whether it fits. */
  method PutNext(block: array<byte>, ghost done: seq<byte>, offset: nat, text: string, width: nat) returns (ok: bool)
    requires offset == |done| && offset + width <= block.Length
    requires block[..] == done + ZeroBytes(block.Length - |done|)
    modifies block
    ensures ok <==> |Encode(text)| <= width
    ensures ok ==> block[..] == (done + Field(Encode(text), width)) + ZeroBytes(block.Length - |done| - width)
  {
    PutExtends(done, if |Encode(text)| <= width then Encode(text) else [], width, block.Length - |done|);
    ok := Put(block, offset, text, width);
  }

  /** A number field written next to the ones already there. */
  method PutNumber(block: array<byte>, ghost done: seq<byte>, offset: nat, n: nat, width: nat) returns (ok: bool)
    requires offset == |done| && width >= 2 && offset + width <= block.Length
    requires block[..] == done + ZeroBytes(block.Length - |done|)
    modifies block
    ensures ok <==> FitsOctal(n, width)
    ensures ok ==> block[..] == (done + Octal(n, width)) + ZeroBytes(block.Length - |done| - width)
  {
    OctalTextIsOctal(n, width);
    var text := OctalText(n, width);
    if text.None? {
      return false;
    }
    assert Field(Octal(n, width), width) == Octal(n, width);
    ok := PutNext(block, done, offset, text.value, width);
  }

  /** Name, mode, owner, group, size, time: the block up to its checksum. */
  method PutHead(block: array<byte>, name: string, mode: nat, size: nat, mtime: nat) returns (ok: bool)
    requires block.Length == BLOCK && block[..] == ZeroBytes(BLOCK)
    modifies block
    ensures ok <==> |Encode(name)| <= 100 && FitsOctal(mode, 8) && FitsOctal(size, 12) && FitsOctal(mtime, 12)
    ensures ok ==> block[..] == Head(Encode(name), mode, size, mtime) + ZeroBytes(BLOCK - 148)
  {
    ModesFit();
    ghost var done: seq<byte> := [];
    assert ZeroBytes(BLOCK) == done + ZeroBytes(BLOCK);
    ok := PutNext(block, done, 0, name, 100);
    if !ok { return; }
    done := Field(Encode(name), 100);
    assert [] + done == done;
    ok := PutNumber(block, done, 100, mode, 8);
    if !ok { return; }
    done := done + Octal(mode, 8);
    ok := PutNumber(block, done, 108, 0, 8);
    done := done + Octal(0, 8);
    ok := PutNumber(block, done, 116, 0, 8);
    done := done + Octal(0, 8);
    ok := PutNumber(block, done, 124, size, 12);
    if !ok { return; }
    done := done + Octal(size, 12);
    ok := PutNumber(block, done, 136, mtime, 12);
    if !ok { return; }
    done := done + Octal(mtime, 12);
    assert done == Head(Encode(name), mode, size, mtime);
  }

  /** Spaces in the checksum's field, the type, and the empty link name left as it is. */
  method PutType(block: array<byte>, ghost head: seq<byte>, kind: char)
    requires block.Length == BLOCK && |head| == 148 && block[..] == head + ZeroBytes(BLOCK - 148)
    requires kind < '\U{80}'
    modifies block
    ensures block[..] == (head + SpaceBytes(8) + [kind as int] + ZeroBytes(100)) + ZeroBytes(BLOCK - 257)
  {
    SpacesText();
    TypeText(kind);
    MagicTexts();
    var ok := PutNext(block, head, 148, "        ", 8);
    ok := PutNext(block, head + SpaceBytes(8), 156, [kind], 1);
    ZerosSplit(head + SpaceBytes(8) + [kind as int], 100, BLOCK - 257);
  }

  lemma ZerosSplit(done: seq<byte>, k: nat, left: nat)
    ensures done + ZeroBytes(k + left) == (done + ZeroBytes(k)) + ZeroBytes(left)
  {
  }

  /** The magic, the version and the two names. */
  method PutTail(block: array<byte>, ghost head: seq<byte>, kind: char)
    requires block.Length == BLOCK && |head| == 148 && block[..] == head + ZeroBytes(BLOCK - 148)
    requires kind < '\U{80}'
    modifies block
    ensures block[..] == head + SpaceBytes(8) + Tail(kind as int)
  {
    SpacesText();
    TypeText(kind);
    MagicTexts();
    PutType(block, head, kind);
    ghost var done := head + SpaceBytes(8) + [kind as int] + ZeroBytes(100);
    var ok := PutNext(block, done, 257, "ustar\0", 6);
    ok := PutNext(block, done + USTAR, 263, "00", 2);
    ok := PutNext(block, done + USTAR + [48, 48], 265, "root", 32);
    ok := PutNext(block, done + USTAR + [48, 48] + Field(ROOT, 32), 297, "root", 32);
    TailRegroup(head, SpaceBytes(8), [kind as int], ZeroBytes(100), USTAR, [48, 48], Field(ROOT, 32), ZeroBytes(183));
  }

  lemma TailRegroup(head: seq<byte>, sp: seq<byte>, k: seq<byte>, z: seq<byte>, u: seq<byte>, v: seq<byte>,
      r: seq<byte>, rest: seq<byte>)
    ensures (head + sp + k + z + u + v + r + r) + rest == head + sp + (k + z + u + v + r + r + rest)
  {
  }

  lemma SpacesText()
    ensures Encode("        ") == SpaceBytes(8) && Field(SpaceBytes(8), 8) == SpaceBytes(8)
  {
    EncodeAscii("        ");
  }

  lemma TypeText(kind: char)
    requires kind < '\U{80}'
    ensures Encode([kind]) == [kind as int] && Field([kind as int], 1) == [kind as int]
  {
    EncodeAscii([kind]);
  }

  lemma MagicTexts()
    ensures Encode("ustar\0") == USTAR && Field(USTAR, 6) == USTAR
    ensures Encode("00") == [48, 48] && Field([48, 48], 2) == [48, 48]
    ensures Encode("root") == ROOT
  {
    EncodeAscii("ustar\0");
    EncodeAscii("00");
    EncodeAscii("root");
  }

  /** The sum of the block's bytes. */
  method SumOf(block: array<byte>) returns (sum: nat)
    ensures sum == Sum(block[..])
  {
    sum := 0;
    for i := 0 to block.Length
      invariant sum == Sum(block[..i])
    {
      assert block[..i + 1][..i] == block[..i];
      sum := sum + block[i];
    }
    assert block[..block.Length] == block[..];
  }

  /** One header; none when a field does not fit. */
  method WriteHeader(name: string, kind: char, mode: nat, size: nat, mtime: real) returns (block: Option<array<byte>>)
    requires kind < '\U{80}'
    ensures block.Some? <==>
      |Encode(name)| <= 100 && FitsOctal(mode, 8) && FitsOctal(size, 12) && FitsOctal(Seconds(mtime), 12)
    ensures block.Some? ==>
      && fresh(block.value)
      && block.value[..] == HeaderBytes(Encode(name), kind as int, mode, size, Seconds(mtime))
  {
    var b := new byte[BLOCK](_ => 0);
    assert b[..] == ZeroBytes(BLOCK);
    var ok := PutHead(b, name, mode, size, Seconds(mtime));
    if !ok {
      return None;
    }
    ghost var head := Head(Encode(name), mode, size, Seconds(mtime));
    PutTail(b, head, kind);
    PutChecksum(b, head, Tail(kind as int));
    return Some(b);
  }

  /** The sum of the block as it stands, written over the eight spaces. */
  method PutChecksum(block: array<byte>, ghost head: seq<byte>, ghost tail: seq<byte>)
    requires block.Length == BLOCK && |head| == 148 && |tail| == 356
    requires block[..] == head + SpaceBytes(8) + tail
    modifies block
    ensures Sum(head + SpaceBytes(8) + tail) <= 255 * BLOCK
    ensures block[..] == head + Checksum(Sum(head + SpaceBytes(8) + tail)) + tail
  {
    var sum := SumOf(block);
    SumBound(head + SpaceBytes(8) + tail);
    SixOctalDigits(sum);
    var ok := Put(block, 148, Padded(sum, 8, 6) + "\0 ", 8);
    ReplaceChecksum(head, Checksum(sum), tail);
  }

  lemma SixOctalDigits(sum: nat)
    requires sum <= 255 * BLOCK
    ensures Encode(Padded(sum, 8, 6) + "\0 ") == Checksum(sum)
  {
    assert Pow(8, 2) == 8 * Pow(8, 1) == 64;
    assert Pow(8, 4) == 8 * Pow(8, 3) == 64 * Pow(8, 2);
    assert Pow(8, 6) == 8 * Pow(8, 5) == 64 * Pow(8, 4) == 262144;
    EncodeAppend(Padded(sum, 8, 6), "\0 ");
    EncodeAscii("\0 ");
    assert Encode("\0 ") == [0, SPACE];
    assert Checksum(sum) == Encode(Padded(sum, 8, 6)) + [0] + [SPACE];
  }

  lemma ReplaceChecksum(head: seq<byte>, c: seq<byte>, tail: seq<byte>)
    requires |head| == 148 && |c| == 8 && |tail| == 356
    ensures var blank := head + SpaceBytes(8) + tail; blank[..148] + c + blank[156..] == head + c + tail
  {
  }

  ghost function Flat(blocks: seq<seq<byte>>): seq<byte> {
    if blocks == [] then [] else Flat(blocks[..|blocks| - 1]) + blocks[|blocks| - 1]
  }

  lemma FlatOneMore(blocks: seq<seq<byte>>, b: seq<byte>)
    ensures Flat(blocks + [b]) == Flat(blocks) + b
  {
    assert (blocks + [b])[..|blocks|] == blocks;
  }

  lemma {:induction false} FlatAppend(a: seq<seq<byte>>, b: seq<seq<byte>>)
    ensures Flat(a + b) == Flat(a) + Flat(b)
  {
    if b == [] {
      assert a + b == a;
    } else {
      var front := b[..|b| - 1];
      assert (a + b)[..|a + b| - 1] == a + front;
      FlatAppend(a, front);
      Reassociate(Flat(a), Flat(front), b[|b| - 1]);
    }
  }

  /** NULs up to the next multiple of 512; nothing to add when the length is one already. */
  method Pad(data: seq<byte>) returns (out: seq<byte>)
    ensures out == PadToBlock(data)
  {
    var length := (|data| + BLOCK - 1) / BLOCK * BLOCK;
    if length == |data| {
      return data;
    }
    return data + ZeroBytes(length - |data|);
  }

  /** A header and its padded data, pushed as the source pushes them: no data block for no data. */
  method PushSection(blocks: seq<seq<byte>>, name: string, kind: char, mode: nat, mtime: real,
      data: seq<byte>) returns (more: Option<seq<seq<byte>>>)
    requires kind < '\U{80}' && |Encode(name)| <= 100 && FitsOctal(mode, 8)
    ensures more.Some? <==> FitsOctal(|data|, 12) && FitsOctal(Seconds(mtime), 12)
    ensures more.Some? ==>
      Flat(more.value) == Flat(blocks) + Section(Encode(name), kind as int, mode, Seconds(mtime), data)
  {
    var header := WriteHeader(name, kind, mode, |data|, mtime);
    if header.None? {
      return None;
    }
    var bytes := header.value[..];
    SectionOf(Encode(name), kind as int, mode, Seconds(mtime), data, bytes);
    if |data| == 0 {
      FlatOneMore(blocks, bytes);
      assert bytes + PadToBlock(data) == bytes;
      return Some(blocks + [bytes]);
    }
    var out := Pad(data);
    FlatTwoMore(blocks, bytes, out);
    return Some(blocks + [bytes] + [out]);
  }

  lemma SectionOf(name: seq<byte>, kind: byte, mode: nat, mtime: nat, data: seq<byte>, header: seq<byte>)
    requires |name| <= 100 && FitsOctal(mode, 8) && FitsOctal(|data|, 12) && FitsOctal(mtime, 12)
    requires header == HeaderBytes(name, kind, mode, |data|, mtime)
    ensures Section(name, kind, mode, mtime, data) == header + PadToBlock(data)
  {
  }

  lemma FlatTwoMore(blocks: seq<seq<byte>>, a: seq<byte>, b: seq<byte>)
    ensures Flat(blocks + [a] + [b]) == Flat(blocks) + (a + b)
  {
    FlatOneMore(blocks, a);
    FlatOneMore(blocks + [a], b);
    Reassociate(Flat(blocks), a, b);
  }

  /** The pax record of a path that does not fit, under its own header. */
  method PaxBlocks(e: Entry) returns (blocks: Option<seq<seq<byte>>>)
    requires Long(e)
    ensures blocks.Some? <==> FitsOctal(|PaxBytes(e)|, 12) && FitsOctal(Seconds(e.mtime), 12)
    ensures blocks.Some? && Fits(e) ==> Flat(blocks.value) == PaxSection(e)
  {
    PaxHeaderFits();
    var record := PaxRecord("path", PathOf(e));
    blocks := PushSection([], PAX_NAME, 'x', MODE_PLAIN, e.mtime, Encode(record));
  }

  /** The header and the data of an entry, after the blocks already pushed. */
  method MainBlocks(pushed: seq<seq<byte>>, e: Entry) returns (blocks: Option<seq<seq<byte>>>)
    ensures blocks.Some? <==> FitsOctal(|ContentOf(e)|, 12) && FitsOctal(Seconds(e.mtime), 12)
    ensures blocks.Some? && Fits(e) ==> Flat(blocks.value) == Flat(pushed) + MainSection(e)
  {
    NameFits(e);
    var name := NameOf(e);
    if e.Directory? {
      blocks := PushSection(pushed, name, '5', ModeOf(e), e.mtime, []);
    } else {
      blocks := PushSection(pushed, name, '0', ModeOf(e), e.mtime, e.content);
    }
  }

  lemma NothingBefore(b: seq<byte>)
    ensures Flat([]) + b == b
  {
  }

  /** What one entry adds to the archive, or none when a number has too many octal digits for its field. */
  method EntryBlocks(e: Entry) returns (blocks: Option<seq<seq<byte>>>)
    ensures blocks.Some? <==> Fits(e)
    ensures blocks.Some? ==> Flat(blocks.value) == EntryBytes(e)
  {
    if |Encode(PathOf(e))| <= 100 {
      blocks := MainBlocks([], e);
      if blocks.Some? {
        NothingBefore(MainSection(e));
      }
      return;
    }
    blocks := PaxBlocks(e);
    if blocks.Some? {
      blocks := MainBlocks(blocks.value, e);
    }
  }

  lemma EntriesOneMore(es: seq<Entry>, e: Entry)
    requires AllFit(es + [e]) && AllFit(es)
    ensures Fits(e) && EntriesBytes(es + [e]) == EntriesBytes(es) + EntryBytes(e)
  {
    assert (es + [e])[|es|] == e;
    if es == [] {
      assert es + [e] == [e] && [e][1..] == [];
    } else {
      assert (es + [e])[1..] == es[1..] + [e];
      EntriesOneMore(es[1..], e);
      Reassociate(EntryBytes(es[0]), EntriesBytes(es[1..]), EntryBytes(e));
    }
  }

  lemma FirstEntries(es: seq<Entry>, i: nat)
    requires i < |es| && AllFit(es[..i]) && Fits(es[i])
    ensures AllFit(es[..i + 1]) && EntriesBytes(es[..i + 1]) == EntriesBytes(es[..i]) + EntryBytes(es[i])
  {
    assert es[..i + 1] == es[..i] + [es[i]];
    assert AllFit(es[..i] + [es[i]]);
    EntriesOneMore(es[..i], es[i]);
  }

  /** One buffer, each block copied after the one before. */
  method Concatenate(blocks: seq<seq<byte>>) returns (out: array<byte>)
    ensures fresh(out) && out[..] == Flat(blocks)
  {
    var total := 0;
    for i := 0 to |blocks|
      invariant total == |Flat(blocks[..i])|
    {
      FlatOneMore(blocks[..i], blocks[i]);
      assert blocks[..i + 1] == blocks[..i] + [blocks[i]];
      total := total + |blocks[i]|;
    }
    assert blocks[..|blocks|] == blocks;
    out := new byte[total](_ => 0);
    var offset := 0;
    for i := 0 to |blocks|
      invariant offset == |Flat(blocks[..i])| <= total == |Flat(blocks)|
      invariant out[..offset] == Flat(blocks[..i])
    {
      var block := blocks[i];
      FlatOneMore(blocks[..i], block);
      assert blocks[..i + 1] == blocks[..i] + [block];
      FlatAppend(blocks[..i + 1], blocks[i + 1..]);
      assert blocks[..i + 1] + blocks[i + 1..] == blocks;
      ghost var was := out[..];
      forall k | 0 <= k < |block| {
        out[offset + k] := block[k];
      }
      SetAt(was, out[..], offset, block);
      assert was[..offset] == Flat(blocks[..i]);
      offset := offset + |block|;
    }
    assert out[..offset] == out[..];
  }

  /**
   * The whole archive, or none when a number does not fit its field: a whole
   * number of blocks ending in two empty ones, from which a reader of the
   * format recovers exactly the entries.
   */
  method WriteArchive(entries: seq<Entry>) returns (out: Option<array<byte>>)
    ensures out.Some? <==> AllFit(entries)
    ensures out.Some? ==> fresh(out.value) && out.value[..] == Archive(entries)
    ensures out.Some? ==> out.value.Length % BLOCK == 0
    ensures out.Some? ==> ReadArchive(out.value[..], None) == Some(RecoveredAll(entries))
  {
    var blocks: seq<seq<byte>> := [];
    for i := 0 to |entries|
      invariant AllFit(entries[..i]) && Flat(blocks) == EntriesBytes(entries[..i])
    {
      var more := EntryBlocks(entries[i]);
      if more.None? {
        return None;
      }
      FirstEntries(entries, i);
      FlatAppend(blocks, more.value);
      blocks := blocks + more.value;
    }
    assert entries[..|entries|] == entries;
    FlatOneMore(blocks, ZeroBytes(2 * BLOCK));
    var archive := Concatenate(blocks + [ZeroBytes(2 * BLOCK)]);
    ArchiveIsWholeBlocks(entries);
    ArchiveReadsBack(entries);
    return Some(archive);
  }
}
