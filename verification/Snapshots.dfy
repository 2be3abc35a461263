/** The names of a project's snapshots: sorted as text by time, each readable under one folder only. */
module Snapshots {
  import opened Options
  import opened Text
  import opened Digits
  import opened Calendar
  import opened CompactTimes

  // --- text order is time order ----------------------------------------------

  lemma {:induction false} BeforeTogether(a: string, b: string, c: string, d: string)
    requires |a| == |c|
    ensures Before(a + b, c + d) <==> Before(a, c) || (a == c && Before(b, d))
  {
    if a == "" {
      assert a + b == b && c + d == d;
    } else {
      assert (a + b)[1..] == a[1..] + b && (c + d)[1..] == c[1..] + d;
      BeforeTogether(a[1..], b, c[1..], d);
      assert a == [a[0]] + a[1..] && c == [c[0]] + c[1..];
    }
  }

  lemma {:induction false} NeverBothBefore(a: string, b: string)
    ensures !(Before(a, b) && Before(b, a))
  {
    if a != "" && b != "" {
      NeverBothBefore(a[1..], b[1..]);
    }
  }

  /** Of two texts of digits of one length, the one worth less comes first. */
  lemma {:induction false} DigitsKeepOrder(a: string, b: string)
    requires |a| == |b| && AllDigits(a) && AllDigits(b) && Value(a, 10) <= Value(b, 10)
    ensures if Value(a, 10) == Value(b, 10) then a == b else Before(a, b)
  {
    if a != "" {
      var n := |a| - 1;
      DigitsKeepOrder(a[..n], b[..n]);
      assert a == a[..n] + [a[n]] && b == b[..n] + [b[n]];
      BeforeTogether(a[..n], [a[n]], b[..n], [b[n]]);
      assert Before([a[n]], [b[n]]) <==> a[n] < b[n];
    }
  }

  lemma TwoKeepsOrder(m: int, n: int)
    requires 0 <= m < n < 100
    ensures Before(Two(m), Two(n))
  {
    TwoDigits(m);
    TwoDigits(n);
    DigitsKeepOrder(Two(m), Two(n));
  }

  lemma DateKeepsOrder(a: Date, b: Date)
    requires EarlierDate(a, b) && 0 <= a.year <= 9999 && 0 <= b.year <= 9999
    requires 1 <= a.month <= 12 && 1 <= b.month <= 12 && 1 <= a.day <= 31 && 1 <= b.day <= 31
    ensures Before(DateText(a), DateText(b))
  {
    FourDigits(a.year);
    FourDigits(b.year);
    TwoDigits(a.month);
    TwoDigits(b.month);
    BeforeTogether(YearText(a.year), Two(a.month) + Two(a.day), YearText(b.year), Two(b.month) + Two(b.day));
    BeforeTogether(Two(a.month), Two(a.day), Two(b.month), Two(b.day));
    if a.year < b.year {
      DigitsKeepOrder(YearText(a.year), YearText(b.year));
    } else if a.month < b.month {
      TwoKeepsOrder(a.month, b.month);
    } else {
      TwoKeepsOrder(a.day, b.day);
    }
  }

  lemma TimeKeepsOrder(a: Time, b: Time)
    requires EarlierTime(a, b) && 0 <= a.hour < 24 && 0 <= b.hour < 24
    requires 0 <= a.minute < 60 && 0 <= b.minute < 60 && 0 <= a.second < 60 && 0 <= b.second < 60
    ensures Before(TimeText(a), TimeText(b))
  {
    TwoDigits(a.hour);
    TwoDigits(b.hour);
    TwoDigits(a.minute);
    TwoDigits(b.minute);
    BeforeTogether(Two(a.hour), Two(a.minute) + Two(a.second), Two(b.hour), Two(b.minute) + Two(b.second));
    BeforeTogether(Two(a.minute), Two(a.second), Two(b.minute), Two(b.second));
    if a.hour < b.hour {
      TwoKeepsOrder(a.hour, b.hour);
    } else if a.minute < b.minute {
      TwoKeepsOrder(a.minute, b.minute);
    } else {
      TwoKeepsOrder(a.second, b.second);
    }
  }

  lemma DateTextLength(d: Date)
    requires 0 <= d.year <= 9999 && 1 <= d.month <= 12 && 1 <= d.day <= 31
    ensures |DateText(d)| == 8
  {
    FourDigits(d.year);
    TwoDigits(d.month);
    TwoDigits(d.day);
  }

  lemma TimeTextLength(t: Time)
    requires 0 <= t.hour < 24 && 0 <= t.minute < 60 && 0 <= t.second < 60
    ensures |TimeText(t)| == 6
  {
    TwoDigits(t.hour);
    TwoDigits(t.minute);
    TwoDigits(t.second);
  }

  lemma EarlierTextFirst(s: int, t: int)
    requires s < t && 0 <= DateAt(s).year <= 9999 && 0 <= DateAt(t).year <= 9999
    ensures Before(TextAt(s), TextAt(t))
  {
    FieldsKeepOrder(s, t);
    DateTextLength(DateAt(s));
    DateTextLength(DateAt(t));
    TimeTextLength(TimeAt(s));
    TimeTextLength(TimeAt(t));
    var x, y := TimeText(TimeAt(s)), TimeText(TimeAt(t));
    BeforeTogether(DateText(DateAt(s)), "T" + (x + "Z"), DateText(DateAt(t)), "T" + (y + "Z"));
    BeforeTogether("T", x + "Z", "T", y + "Z");
    BeforeTogether(x, "Z", y, "Z");
    if EarlierDate(DateAt(s), DateAt(t)) {
      DateKeepsOrder(DateAt(s), DateAt(t));
    } else {
      TimeKeepsOrder(TimeAt(s), TimeAt(t));
    }
  }

  /** Sorted as text, compact times of the years 0000 to 9999 are sorted by time, to the second. */
  lemma TextOrderIsTimeOrder(a: int, b: int)
    requires CompactTime(a).Some? && CompactTime(b).Some?
    requires 0 <= DateAt(SecondAt(a)).year <= 9999 && 0 <= DateAt(SecondAt(b)).year <= 9999
    ensures Before(CompactTime(a).value, CompactTime(b).value) <==> Floored(a) < Floored(b)
    ensures CompactTime(a).value == CompactTime(b).value <==> Floored(a) == Floored(b)
  {
    var s, t := SecondAt(a), SecondAt(b);
    NeverBothBefore(TextAt(s), TextAt(t));
    if s < t {
      EarlierTextFirst(s, t);
    } else if t < s {
      EarlierTextFirst(t, s);
    }
  }

  // --- names -----------------------------------------------------------------

  datatype Kind = Scheduled | PreRestore

  datatype Snapshot = Snapshot(name: string, folder: string, takenAt: int, kind: Kind)

  const PRE: string := "-pre-restore"
  const TAR: string := ".tar"

  predicate IsFolderChar(c: char) {
    IsLowerAlnum(c) || c == '.' || c == '-'
  }

  predicate IsBackupFolder(folder: string) {
    && folder != "" && |folder| <= 253
    && IsLowerAlnum(folder[0]) && IsLowerAlnum(folder[|folder| - 1])
    && (forall i | 0 <= i < |folder| :: IsFolderChar(folder[i]))
    && !Includes(folder, "..")
  }

  function Mark(kind: Kind): string {
    if kind == PreRestore then PRE else ""
  }

  function Named(folder: string, text: string, kind: Kind): string {
    folder + ("-" + (text + (Mark(kind) + TAR)))
  }

  /** None where the source throws: a folder outside the rule, a time out of a date's range. */
  function SnapshotName(folder: string, takenAt: int, kind: Kind): Option<string> {
    if !IsBackupFolder(folder) || CompactTime(takenAt).None? then None
    else Some(Named(folder, CompactTime(takenAt).value, kind))
  }

  function Slice(s: string, from: nat, to: int): string {
    if from <= to <= |s| then s[from..to] else ""
  }

  /** What stands between the folder and the suffix, and the kind its end tells. */
  function MiddleOf(folder: string, name: string): (string, Kind) {
    var middle := Slice(name, |folder| + 1, |name| - |TAR|);
    if EndsWith(middle, PRE) then (middle[..|middle| - |PRE|], PreRestore) else (middle, Scheduled)
  }

  predicate LooksNamed(folder: string, name: string) {
    IsBackupFolder(folder) && StartsWith(name, folder + "-") && EndsWith(name, TAR)
  }

  function ReadName(folder: string, name: string): Option<Snapshot> {
    if !LooksNamed(folder, name) then None
    else
      var (text, kind) := MiddleOf(folder, name);
      if ReadCompactTime(text).None? then None else Some(Snapshot(name, folder, ReadCompactTime(text).value, kind))
  }

  method ReadSnapshotName(folder: string, name: string) returns (r: Option<Snapshot>)
    ensures r == ReadName(folder, name)
  {
    if !LooksNamed(folder, name) {
      return None;
    }
    var middle := Slice(name, |folder| + 1, |name| - |TAR|);
    var kind := Scheduled;
    if EndsWith(middle, PRE) {
      kind := PreRestore;
      middle := middle[..|middle| - |PRE|];
    }
    var takenAt := ReadCompactTime(middle);
    return if takenAt == None then None else Some(Snapshot(name, folder, takenAt.value, kind));
  }

  // --- a name and its folder -------------------------------------------------

  lemma LastOfSuffix(s: string, suffix: string)
    requires EndsWith(s, suffix) && suffix != ""
    ensures s != "" && s[|s| - 1] == suffix[|suffix| - 1]
  {
    assert s[|s| - |suffix|..][|suffix| - 1] == s[|s| - 1];
  }

  predicate EndsInZ(text: string) {
    text != "" && text[|text| - 1] == 'Z'
  }

  lemma MiddleIs(folder: string, middle: string)
    ensures var name := folder + ("-" + (middle + TAR));
      StartsWith(name, folder + "-") && EndsWith(name, TAR) && Slice(name, |folder| + 1, |name| - |TAR|) == middle
  {
    var name := folder + ("-" + (middle + TAR));
    assert name == (folder + "-") + (middle + TAR);
    assert name[|folder| + 1..] == middle + TAR;
    assert name[|name| - |TAR|..] == TAR;
    assert name[|folder| + 1..|name| - |TAR|] == middle;
  }

  lemma MarkReads(text: string, kind: Kind)
    requires EndsInZ(text)
    ensures EndsWith(text + Mark(kind), PRE) <==> kind == PreRestore
    ensures (text + Mark(kind))[..|text|] == text
  {
    if kind == PreRestore {
      assert (text + PRE)[|text|..] == PRE;
    } else {
      assert text + Mark(kind) == text;
      if EndsWith(text, PRE) {
        LastOfSuffix(text, PRE);
      }
    }
  }

  lemma MiddleOfName(folder: string, text: string, kind: Kind)
    requires EndsInZ(text)
    ensures StartsWith(Named(folder, text, kind), folder + "-") && EndsWith(Named(folder, text, kind), TAR)
    ensures MiddleOf(folder, Named(folder, text, kind)) == (text, kind)
  {
    var middle := text + Mark(kind);
    assert middle + TAR == text + (Mark(kind) + TAR);
    MiddleIs(folder, middle);
    MarkReads(text, kind);
    assert kind == Scheduled ==> middle == text;
    assert kind == PreRestore ==> |middle| - |PRE| == |text|;
  }

  /** A snapshot's name reads back under its folder, to the second, exactly when its year is from 0100 to 9999. */
  lemma NameReadsBack(folder: string, takenAt: int, kind: Kind)
    requires SnapshotName(folder, takenAt, kind).Some?
    ensures var name := SnapshotName(folder, takenAt, kind).value;
      ReadName(folder, name) ==
        if 100 <= DateAt(SecondAt(takenAt)).year <= 9999 then Some(Snapshot(name, folder, Floored(takenAt), kind))
          else None
  {
    var text := CompactTime(takenAt).value;
    TextLength(SecondAt(takenAt));
    MiddleOfName(folder, text, kind);
    CompactTimeReadsBack(takenAt);
  }

  lemma ReadHasShape(text: string)
    requires ReadCompactTime(text).Some?
    ensures |text| == 16 && EndsInZ(text)
  {
  }

  lemma Decomposed(folder: string, name: string)
    requires StartsWith(name, folder + "-") && EndsWith(name, TAR) && Slice(name, |folder| + 1, |name| - |TAR|) != ""
    ensures name == folder + ("-" + (Slice(name, |folder| + 1, |name| - |TAR|) + TAR))
  {
    var middle := Slice(name, |folder| + 1, |name| - |TAR|);
    assert name == name[..|folder| + 1] + (middle + name[|name| - |TAR|..]);
    assert name[..|folder| + 1] == folder + "-";
  }

  lemma MarkSplits(middle: string, text: string, kind: Kind)
    requires if EndsWith(middle, PRE) then text == middle[..|middle| - |PRE|] && kind == PreRestore
      else text == middle && kind == Scheduled
    ensures middle + TAR == text + (Mark(kind) + TAR)
  {
    assert middle == text + Mark(kind);
  }

  /** The parts of a name that reads. */
  lemma PartsOfName(folder: string, name: string) returns (text: string, kind: Kind)
    requires ReadName(folder, name).Some?
    ensures name == Named(folder, text, kind) && kind == ReadName(folder, name).value.kind
    ensures ReadCompactTime(text) == Some(ReadName(folder, name).value.takenAt)
    ensures |text| == 16 && EndsInZ(text)
  {
    var parts := MiddleOf(folder, name);
    text, kind := parts.0, parts.1;
    ReadHasShape(text);
    MarkSplits(Slice(name, |folder| + 1, |name| - |TAR|), text, kind);
    Decomposed(folder, name);
  }

  /** Two readings of one name agree on what follows the folder's dash being of one kind. */
  lemma SameEnd(g: string, a: string, ka: Kind, h: string, b: string, kb: Kind)
    requires EndsInZ(a) && EndsInZ(b) && Named(g, a, ka) == Named(h, b, kb)
    ensures ka == kb && g + ("-" + a) == h + ("-" + b)
  {
    var n, m := Named(g, a, ka), Named(h, b, kb);
    assert ka == Scheduled ==> n[|n| - 5] == 'Z';
    assert kb == Scheduled ==> m[|m| - 5] == 'Z';
    assert ka == PreRestore ==> n[|n| - 5] == 'e';
    assert kb == PreRestore ==> m[|m| - 5] == 'e';
    assert n[..|n| - |Mark(ka)| - 4] == g + ("-" + a);
    assert m[..|m| - |Mark(kb)| - 4] == h + ("-" + b);
  }

  lemma SameFolder(g: string, a: string, h: string, b: string)
    requires g + ("-" + a) == h + ("-" + b) && |a| == |b|
    ensures g == h
  {
    assert (g + ("-" + a))[..|g|] == g && (h + ("-" + b))[..|h|] == h;
  }

  /** No name is a snapshot of two folders. */
  lemma OnlyOneFolder(g: string, h: string, name: string)
    requires ReadName(g, name).Some? && ReadName(h, name).Some?
    ensures g == h
  {
    var a, ka := PartsOfName(g, name);
    var b, kb := PartsOfName(h, name);
    SameEnd(g, a, ka, h, b, kb);
    SameFolder(g, a, h, b);
  }

  lemma DashWithin(g: string, a: string, h: string, b: string)
    requires g + ("-" + a) == h + ("-" + b) && |a| < |b|
    ensures b[|b| - |a| - 1] == '-'
  {
    assert (g + ("-" + a))[|g|] == '-';
    assert (h + ("-" + b))[|g|] == b[|g| - |h| - 1];
  }

  /** The name made for a folder is read under that folder or under none, whatever the year. */
  lemma ReadUnderNoOtherFolder(folder: string, takenAt: int, kind: Kind, g: string)
    requires SnapshotName(folder, takenAt, kind).Some?
    requires ReadName(g, SnapshotName(folder, takenAt, kind).value).Some?
    ensures g == folder
  {
    var text, year := TextAt(SecondAt(takenAt)), DateAt(SecondAt(takenAt)).year;
    TextLength(SecondAt(takenAt));
    var a, ka := PartsOfName(g, SnapshotName(folder, takenAt, kind).value);
    SameEnd(g, a, ka, folder, text, kind);
    if 0 <= year <= 9999 {
      FourDigits(year);
      SameFolder(g, a, folder, text);
    } else {
      LongYear(year);
      DashWithin(g, a, folder, text);
    }
  }

  /** A name that reads is the name made for what it says. */
  lemma NameReadReprints(folder: string, name: string)
    requires ReadName(folder, name).Some?
    ensures var s := ReadName(folder, name).value; SnapshotName(folder, s.takenAt, s.kind) == Some(name)
  {
    var text, kind := PartsOfName(folder, name);
    AcceptedTextReprints(text, ReadName(folder, name).value.takenAt);
  }
}
