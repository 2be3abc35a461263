/** Comparing two deployment files by their directives: order aside, but kept inside a route or a handle. */
module Comparison {
  import opened Text
  import opened JsonArrays

  // --- the lines that decide -------------------------------------------------

  function Useful(lines: seq<string>): (r: seq<string>)
    ensures forall i | 0 <= i < |r| :: r[i] != "" && Trimmed(r[i]) && !StartsWith(r[i], "#")
  {
    if lines == [] then []
    else
      TrimIsTrimmed(lines[0]);
      (if Trim(lines[0]) != "" && !StartsWith(Trim(lines[0]), "#") then [Trim(lines[0])] else []) + Useful(lines[1..])
  }

  function UsefulDirectives(text: string): seq<string> {
    Useful(Split(text, '\n'))
  }

  // --- groups ----------------------------------------------------------------

  /** The word, then nothing or white space and anything on the line, then an opening brace. */
  predicate Opens(line: string, word: string) {
    StartsWith(line, word) && EndsWith(line[|word|..], "{") &&
    var inner := line[|word|..|line| - 1];
    inner == "" || (IsSpace(inner[0]) && forall i | 1 <= i < |inner| :: !EndsLine(inner[i]))
  }

  predicate IsOpening(line: string) {
    Opens(line, "route") || Opens(line, "handle")
  }

  function Braces(line: string): int {
    if line == "" then 0
    else (if line[0] == '{' then 1 else if line[0] == '}' then -1 else 0) + Braces(line[1..])
  }

  function Depth(lines: seq<string>): int {
    if lines == [] then 0 else Depth(lines[..|lines| - 1]) + Braces(lines[|lines| - 1])
  }

  /** A line on its own, or a whole route or handle. */
  datatype Item = Plain(line: string) | Group(lines: seq<string>)

  function LinesOf(item: Item): seq<string> {
    if item.Plain? then [item.line] else item.lines
  }

  function Flat(items: seq<Item>): seq<string> {
    if items == [] then [] else LinesOf(items[0]) + Flat(items[1..])
  }

  ghost predicate StaysOpen(lines: seq<string>) {
    forall n | 0 < n < |lines| :: Depth(lines[..n]) > 0
  }

  ghost predicate IsGroup(lines: seq<string>, last: bool) {
    && lines != [] && IsOpening(lines[0]) && StaysOpen(lines)
    && (Depth(lines) <= 0 || last)
  }

  /**
   * The lines cut in order: what opens no group on its own, what does with all it
   * encloses, to its closing or to the end.
   */
  ghost predicate IsGrouping(items: seq<Item>) {
    forall k | 0 <= k < |items| ::
      if items[k].Plain? then !IsOpening(items[k].line) else IsGroup(items[k].lines, k == |items| - 1)
  }

  /** How many lines the group that opens the lines takes, the first `n` being in it. */
  function GroupLength(lines: seq<string>, n: nat): (r: nat)
    requires n <= |lines|
    ensures n <= r <= |lines| && (n < |lines| ==> n < r)
    decreases |lines| - n
  {
    if n == |lines| then n
    else if Depth(lines[..n + 1]) <= 0 then n + 1
    else GroupLength(lines, n + 1)
  }

  function Items(lines: seq<string>): seq<Item> {
    if lines == [] then []
    else if !IsOpening(lines[0]) then [Plain(lines[0])] + Items(lines[1..])
    else
      var n := GroupLength(lines, 0);
      [Group(lines[..n])] + Items(lines[n..])
  }

  // --- the cut is the only one -----------------------------------------------

  lemma {:induction false} GroupLengthCloses(lines: seq<string>, n: nat)
    requires n <= |lines| && forall m | 0 < m <= n :: Depth(lines[..m]) > 0
    ensures var r := GroupLength(lines, n);
      (forall m | 0 < m < r :: Depth(lines[..m]) > 0) && (Depth(lines[..r]) <= 0 || r == |lines|)
    decreases |lines| - n
  {
    if n < |lines| && Depth(lines[..n + 1]) > 0 {
      GroupLengthCloses(lines, n + 1);
    }
  }

  lemma PrefixOfPrefix(lines: seq<string>, r: nat)
    requires r <= |lines|
    ensures forall m | 0 <= m <= r :: lines[..r][..m] == lines[..m]
  {
  }

  lemma GroupIsTaken(lines: seq<string>)
    requires lines != [] && IsOpening(lines[0])
    ensures var n := GroupLength(lines, 0); 0 < n && IsGroup(lines[..n], n == |lines|)
  {
    GroupLengthCloses(lines, 0);
    PrefixOfPrefix(lines, GroupLength(lines, 0));
  }

  lemma NothingFlat(items: seq<Item>)
    requires IsGrouping(items)
    ensures Flat(items) == [] <==> items == []
  {
    if items != [] {
      assert LinesOf(items[0]) != [];
    }
  }

  lemma GroupThenRest(lines: seq<string>, n: nat, rest: seq<Item>)
    requires 0 < n <= |lines| && IsGroup(lines[..n], n == |lines|) && IsGrouping(rest) && Flat(rest) == lines[n..]
    ensures IsGrouping([Group(lines[..n])] + rest) && Flat([Group(lines[..n])] + rest) == lines
  {
    NothingFlat(rest);
    assert lines == lines[..n] + lines[n..];
    Prepended(Group(lines[..n]), rest);
  }

  lemma {:induction false} ItemsCutTheLines(lines: seq<string>)
    ensures Flat(Items(lines)) == lines && IsGrouping(Items(lines))
  {
    if lines != [] {
      if !IsOpening(lines[0]) {
        ItemsCutTheLines(lines[1..]);
        assert lines == [lines[0]] + lines[1..];
        Prepended(Plain(lines[0]), Items(lines[1..]));
      } else {
        var n := GroupLength(lines, 0);
        GroupIsTaken(lines);
        ItemsCutTheLines(lines[n..]);
        GroupThenRest(lines, n, Items(lines[n..]));
      }
    }
  }

  lemma Prepended(item: Item, rest: seq<Item>)
    requires IsGrouping(rest)
    requires if item.Plain? then !IsOpening(item.line) else IsGroup(item.lines, rest == [])
    ensures IsGrouping([item] + rest) && Flat([item] + rest) == LinesOf(item) + Flat(rest)
  {
    var items := [item] + rest;
    assert items[1..] == rest;
    forall k | 0 <= k < |items|
      ensures if items[k].Plain? then !IsOpening(items[k].line) else IsGroup(items[k].lines, k == |items| - 1)
    {
      if k > 0 {
        assert items[k] == rest[k - 1];
      }
    }
  }

  lemma {:induction false} GroupLengthIs(lines: seq<string>, n: nat, r: nat)
    requires n < r <= |lines|
    requires (forall m | 0 < m < r :: Depth(lines[..m]) > 0) && (Depth(lines[..r]) <= 0 || r == |lines|)
    ensures GroupLength(lines, n) == r
    decreases r - n
  {
    if n + 1 < r {
      GroupLengthIs(lines, n + 1, r);
    }
  }

  lemma GroupingTail(items: seq<Item>)
    requires IsGrouping(items) && items != []
    ensures IsGrouping(items[1..])
  {
    var rest := items[1..];
    forall k | 0 <= k < |rest|
      ensures if rest[k].Plain? then !IsOpening(rest[k].line) else IsGroup(rest[k].lines, k == |rest| - 1)
    {
      assert rest[k] == items[k + 1];
    }
  }

  lemma GroupTaken(lines: seq<string>, n: nat)
    requires n <= |lines| && IsGroup(lines[..n], n == |lines|)
    ensures GroupLength(lines, 0) == n
  {
    PrefixOfPrefix(lines, n);
    assert lines[..n][..n] == lines[..n];
    GroupLengthIs(lines, 0, n);
  }

  lemma PlainCut(line: string, rest: seq<string>)
    requires !IsOpening(line)
    ensures Items([line] + rest) == [Plain(line)] + Items(rest)
  {
    assert ([line] + rest)[1..] == rest;
  }

  lemma GroupCut(group: seq<string>, rest: seq<string>)
    requires IsGroup(group, rest == [])
    ensures Items(group + rest) == [Group(group)] + Items(rest)
  {
    var lines, n := group + rest, |group|;
    assert lines[..n] == group && lines[n..] == rest && lines[0] == group[0];
    GroupTaken(lines, n);
  }

  /** Any cut of the lines into such items is the one the scanner makes. */
  lemma {:induction false} OnlyOneCut(items: seq<Item>)
    requires IsGrouping(items)
    ensures Items(Flat(items)) == items
  {
    if items != [] {
      var item, rest := items[0], items[1..];
      GroupingTail(items);
      OnlyOneCut(rest);
      assert items == [item] + rest && Flat(items) == LinesOf(item) + Flat(rest);
      if item.Plain? {
        PlainCut(item.line, Flat(rest));
      } else {
        NothingFlat(rest);
        GroupCut(item.lines, Flat(rest));
      }
    }
  }

  // --- the scanner -----------------------------------------------------------

  /** A directive: what decides, and what a refusal shows. */
  datatype Directive = Directive(key: string, text: string)

  function Shown(group: seq<string>): string {
    if |group| <= 1 then Join(group, "")
    else
      var n := |group| - 1;
      Shown(group[..n]) + (if EndsWith(group[n - 1], "{") || group[n] == "}" then " " else "; ") + group[n]
  }

  function Key(item: Item): string {
    if item.Plain? then item.line else Stringify(item.lines)
  }

  function DirectiveOf(item: Item): Directive {
    if item.Plain? then Directive(item.line, item.line) else Directive(Stringify(item.lines), Shown(item.lines))
  }

  function DirectivesOf(items: seq<Item>): seq<Directive> {
    seq(|items|, i requires 0 <= i < |items| => DirectiveOf(items[i]))
  }

  lemma NextLine(lines: seq<string>, n: nat)
    requires n < |lines|
    ensures lines[..n + 1] == lines[..n] + [lines[n]]
    ensures Depth(lines[..n + 1]) == Depth(lines[..n]) + Braces(lines[n])
  {
    assert lines[..n + 1][..n] == lines[..n];
  }

  /** The inner scan: lines taken until the braces balance, or to the end. */
  method ScanGroup(lines: seq<string>, start: nat) returns (group: seq<string>, next: nat)
    requires start < |lines|
    ensures start < next <= |lines| && group == lines[start..next]
    ensures GroupLength(lines[start..], 0) == next - start
  {
    ghost var rest := lines[start..];
    group, next := [], start;
    var depth := 0;
    while next < |lines|
      invariant start <= next <= |lines|
      invariant group == rest[..next - start] && depth == Depth(group)
      invariant forall m | 0 < m <= next - start :: Depth(rest[..m]) > 0
    {
      NextLine(rest, next - start);
      assert rest[next - start] == lines[next];
      group := group + [lines[next]];
      depth := depth + Braces(lines[next]);
      next := next + 1;
      if depth <= 0 {
        break;
      }
    }
    assert group == lines[start..next];
    GroupLengthIs(rest, 0, next - start);
  }

  lemma ItemsNext(lines: seq<string>, i: nat, n: nat)
    requires i < |lines| && (IsOpening(lines[i]) ==> n == GroupLength(lines[i..], 0))
    ensures !IsOpening(lines[i]) ==> Items(lines[i..]) == [Plain(lines[i])] + Items(lines[i + 1..])
    ensures IsOpening(lines[i]) ==>
      i + n <= |lines| && Items(lines[i..]) == [Group(lines[i..i + n])] + Items(lines[i + n..])
  {
    assert lines[i..][1..] == lines[i + 1..];
    if IsOpening(lines[i]) {
      assert lines[i..][n..] == lines[i + n..] && lines[i..][..n] == lines[i..i + n];
    }
  }

  lemma DoneNext(done: seq<Item>, item: Item, rest: seq<Item>)
    ensures done + ([item] + rest) == (done + [item]) + rest
    ensures DirectivesOf(done + [item]) == DirectivesOf(done) + [DirectiveOf(item)]
  {
  }

  /** What the scan has found, and what is left, make up the directives of all the lines. */
  ghost predicate Scanned(lines: seq<string>, i: nat, done: seq<Item>, result: seq<Directive>) {
    i <= |lines| && result == DirectivesOf(done) && done + Items(lines[i..]) == Items(lines)
  }

  lemma ItemScanned(lines: seq<string>, i: nat, next: nat, item: Item, done: seq<Item>, result: seq<Directive>)
    requires Scanned(lines, i, done, result) && i < next <= |lines|
    requires Items(lines[i..]) == [item] + Items(lines[next..])
    ensures Scanned(lines, next, done + [item], result + [DirectiveOf(item)])
  {
    DoneNext(done, item, Items(lines[next..]));
  }

  lemma PlainScanned(lines: seq<string>, i: nat, done: seq<Item>, result: seq<Directive>)
    requires Scanned(lines, i, done, result) && i < |lines| && !IsOpening(lines[i])
    ensures Scanned(lines, i + 1, done + [Plain(lines[i])], result + [Directive(lines[i], lines[i])])
  {
    ItemsNext(lines, i, 0);
    ItemScanned(lines, i, i + 1, Plain(lines[i]), done, result);
  }

  lemma GroupScanned(lines: seq<string>, i: nat, next: nat, done: seq<Item>, result: seq<Directive>)
    requires Scanned(lines, i, done, result) && i < next <= |lines| && IsOpening(lines[i])
    requires GroupLength(lines[i..], 0) == next - i
    ensures var group := lines[i..next];
      Scanned(lines, next, done + [Group(group)], result + [Directive(Stringify(group), Shown(group))])
  {
    ItemsNext(lines, i, next - i);
    ItemScanned(lines, i, next, Group(lines[i..next]), done, result);
  }

  lemma AllScanned(lines: seq<string>, done: seq<Item>, result: seq<Directive>)
    requires Scanned(lines, |lines|, done, result)
    ensures result == DirectivesOf(Items(lines))
  {
    assert lines[|lines|..] == [];
    assert done + [] == done;
  }

  lemma NothingScanned(lines: seq<string>)
    ensures Scanned(lines, 0, [], [])
  {
    assert lines[0..] == lines;
    assert [] + Items(lines) == Items(lines);
  }

  /** The directives of the useful lines, in one scan. */
  method Directives(lines: seq<string>) returns (result: seq<Directive>)
    ensures result == DirectivesOf(Items(lines))
  {
    result := [];
    ghost var done: seq<Item> := [];
    var i := 0;
    NothingScanned(lines);
    while i < |lines|
      invariant 0 <= i <= |lines|
      invariant Scanned(lines, i, done, result)
    {
      if !IsOpening(lines[i]) {
        PlainScanned(lines, i, done, result);
        result := result + [Directive(lines[i], lines[i])];
        done := done + [Plain(lines[i])];
        i := i + 1;
        continue;
      }
      var group, next := ScanGroup(lines, i);
      GroupScanned(lines, i, next, done, result);
      result := result + [Directive(Stringify(group), Shown(group))];
      done := done + [Group(group)];
      i := next;
    }
    AllScanned(lines, done, result);
  }

  // --- comparing -------------------------------------------------------------

  datatype Divergence = Divergence(lost: seq<string>, added: seq<string>)

  function Keys(directives: seq<Directive>): set<string> {
    set i | 0 <= i < |directives| :: directives[i].key
  }

  /** The texts of the directives whose key is not among the others'. */
  function Missing(directives: seq<Directive>, keys: set<string>): seq<string> {
    if directives == [] then []
    else (if directives[0].key in keys then [] else [directives[0].text]) + Missing(directives[1..], keys)
  }

  function Compared(current: seq<Directive>, generated: seq<Directive>): Divergence {
    Divergence(Missing(current, Keys(generated)), Missing(generated, Keys(current)))
  }

  method CompareDirectives(current: string, generated: string) returns (r: Divergence)
    ensures r == Compared(DirectivesOf(Items(UsefulDirectives(current))),
      DirectivesOf(Items(UsefulDirectives(generated))))
  {
    var a := Directives(UsefulDirectives(current));
    var g := Directives(UsefulDirectives(generated));
    r := Compared(a, g);
  }

  lemma {:induction false} NothingMissing(directives: seq<Directive>, keys: set<string>)
    ensures Missing(directives, keys) == [] <==> forall i | 0 <= i < |directives| :: directives[i].key in keys
  {
    if directives != [] {
      NothingMissing(directives[1..], keys);
      if forall i | 0 <= i < |directives[1..]| :: directives[1..][i].key in keys {
        assert forall i | 0 < i < |directives| :: directives[i] == directives[1..][i - 1];
      }
    }
  }

  /** What is lost and what is added are exactly the directives the other file has not. */
  lemma ComparedIsEmpty(a: seq<Directive>, g: seq<Directive>)
    ensures Compared(a, g) == Divergence([], []) <==> Keys(a) == Keys(g)
  {
    NothingMissing(a, Keys(g));
    NothingMissing(g, Keys(a));
    if Compared(a, g) == Divergence([], []) {
      forall k
        ensures k in Keys(a) <==> k in Keys(g)
      {
      }
    }
    if Keys(a) == Keys(g) {
      assert forall i | 0 <= i < |a| :: a[i].key in Keys(a);
      assert forall i | 0 <= i < |g| :: g[i].key in Keys(g);
    }
  }

  predicate Same(current: string, generated: string) {
    Compared(DirectivesOf(Items(UsefulDirectives(current))), DirectivesOf(Items(UsefulDirectives(generated)))) ==
      Divergence([], [])
  }

  method SameDirectives(current: string, generated: string) returns (r: bool)
    ensures r == Same(current, generated)
  {
    var d := CompareDirectives(current, generated);
    r := |d.lost| == 0 && |d.added| == 0;
  }

  function SetOf(items: seq<Item>): set<Item> {
    set item | item in items
  }

  function ItemSet(text: string): set<Item> {
    SetOf(Items(UsefulDirectives(text)))
  }

  /** A plain line that reads as the list of a group's lines, one of the two in each file, and not both in both. */
  ghost predicate Forges(p: Item, q: Item, a: set<Item>, b: set<Item>) {
    && p.Plain? && q.Group? && p.line == Stringify(q.lines)
    && ((p in a && q in b) || (q in a && p in b))
    && !(p in a && q in a && p in b && q in b)
  }

  ghost predicate Forged(a: set<Item>, b: set<Item>) {
    exists p, q :: Forges(p, q, a, b)
  }

  /** No plain line of one file reads as the list of the lines of a group of the other. */
  ghost predicate Unforged(a: set<Item>, b: set<Item>) {
    forall p, q | p in a && q in b && p.Plain? && q.Group? :: p.line != Stringify(q.lines)
  }

  lemma SameKeySameItem(a: Item, b: Item)
    requires Key(a) == Key(b) && (a.Plain? <==> b.Plain?)
    ensures a == b
  {
    if a.Group? {
      StringifyIsInjective(a.lines, b.lines);
    }
  }

  lemma KeyAt(items: seq<Item>, i: nat)
    requires i < |items|
    ensures DirectivesOf(items)[i].key == Key(items[i]) && Key(items[i]) in Keys(DirectivesOf(items))
  {
    assert DirectivesOf(items)[i].key == Key(items[i]);
  }

  lemma ItemOfKey(items: seq<Item>, key: string) returns (i: nat)
    requires key in Keys(DirectivesOf(items))
    ensures i < |items| && Key(items[i]) == key
  {
    var d := DirectivesOf(items);
    var j :| 0 <= j < |d| && d[j].key == key;
    KeyAt(items, j);
    i := j;
  }

  /** An item whose key the other file has is in it, or one of the two is a forgery. */
  lemma CarriedOver(a: seq<Item>, b: seq<Item>, i: nat)
    requires Keys(DirectivesOf(a)) <= Keys(DirectivesOf(b)) && i < |a|
    ensures a[i] in b || Forged(SetOf(a), SetOf(b))
  {
    KeyAt(a, i);
    var j := ItemOfKey(b, Key(a[i]));
    if a[i].Plain? == b[j].Plain? {
      SameKeySameItem(a[i], b[j]);
    } else if a[i] !in b {
      var p, q := if a[i].Plain? then a[i] else b[j], if a[i].Plain? then b[j] else a[i];
      assert Forges(p, q, SetOf(a), SetOf(b));
    }
  }

  lemma ForgedEitherWay(a: set<Item>, b: set<Item>)
    requires Forged(a, b)
    ensures Forged(b, a) && a != b && !(Unforged(a, b) && Unforged(b, a))
  {
    var p, q :| Forges(p, q, a, b);
    assert Forges(p, q, b, a);
  }

  lemma SameKeysSameItems(a: seq<Item>, b: seq<Item>)
    requires Keys(DirectivesOf(a)) == Keys(DirectivesOf(b)) && !Forged(SetOf(a), SetOf(b))
    ensures SetOf(a) == SetOf(b)
  {
    forall i | 0 <= i < |a|
      ensures a[i] in b
    {
      CarriedOver(a, b, i);
    }
    forall i | 0 <= i < |b|
      ensures b[i] in a
    {
      CarriedOver(b, a, i);
      if b[i] !in a {
        ForgedEitherWay(SetOf(b), SetOf(a));
      }
    }
  }

  /**
   * The same plain lines and the same groups, each group's lines in order, make
   * two files compare equal; and two files that compare equal have them, but
   * when a plain line of one forges a group of the other, and only then.
   */
  lemma SameExactlyWhenItemsAgree(current: string, generated: string)
    ensures ItemSet(current) == ItemSet(generated) <==>
      Same(current, generated) && !Forged(ItemSet(current), ItemSet(generated))
  {
    var a, g := Items(UsefulDirectives(current)), Items(UsefulDirectives(generated));
    ComparedIsEmpty(DirectivesOf(a), DirectivesOf(g));
    if Same(current, generated) && !Forged(SetOf(a), SetOf(g)) {
      SameKeysSameItems(a, g);
    }
    if ItemSet(current) == ItemSet(generated) {
      SameSetSameKeys(a, g);
      SameSetSameKeys(g, a);
    }
    if Forged(SetOf(a), SetOf(g)) {
      ForgedEitherWay(SetOf(a), SetOf(g));
    }
  }

  /**
   * So the comparison is the one intended on any two files where no plain line of one
   * reads as a group of the other.
   */
  lemma SameMeansSameItems(current: string, generated: string)
    requires Unforged(ItemSet(current), ItemSet(generated)) && Unforged(ItemSet(generated), ItemSet(current))
    ensures Same(current, generated) <==> ItemSet(current) == ItemSet(generated)
  {
    SameExactlyWhenItemsAgree(current, generated);
    if Forged(ItemSet(current), ItemSet(generated)) {
      ForgedEitherWay(ItemSet(current), ItemSet(generated));
    }
  }

  /** The same items give the same keys, forged or not. */
  lemma SameSetSameKeys(a: seq<Item>, b: seq<Item>)
    requires SetOf(a) <= SetOf(b)
    ensures Keys(DirectivesOf(a)) <= Keys(DirectivesOf(b))
  {
    forall k | k in Keys(DirectivesOf(a))
      ensures k in Keys(DirectivesOf(b))
    {
      var i := ItemOfKey(a, k);
      assert a[i] in SetOf(a);
      var j :| 0 <= j < |b| && b[j] == a[i];
      KeyAt(b, j);
    }
  }

  /** An equivalence, forged lines or not. */
  lemma SameIsAnEquivalence(a: string, b: string, c: string)
    ensures Same(a, a)
    ensures Same(a, b) ==> Same(b, a)
    ensures Same(a, b) && Same(b, c) ==> Same(a, c)
  {
    var x, y, z := DirectivesOf(Items(UsefulDirectives(a))), DirectivesOf(Items(UsefulDirectives(b))),
      DirectivesOf(Items(UsefulDirectives(c)));
    ComparedIsEmpty(x, x);
    ComparedIsEmpty(x, y);
    ComparedIsEmpty(y, x);
    ComparedIsEmpty(y, z);
    ComparedIsEmpty(x, z);
  }

  // --- what does not count ---------------------------------------------------

  lemma {:induction false} UsefulAppend(a: seq<string>, b: seq<string>)
    ensures Useful(a + b) == Useful(a) + Useful(b)
  {
    if a == [] {
      assert a + b == b;
    } else {
      assert (a + b)[1..] == a[1..] + b;
      UsefulAppend(a[1..], b);
    }
  }

  lemma UsefulOfOne(line: string)
    ensures Useful([line]) == if Trim(line) != "" && !StartsWith(Trim(line), "#") then [Trim(line)] else []
  {
    assert [line][1..] == [];
  }

  lemma UsefulAround(a: string, line: string, b: string)
    requires '\n' !in line
    ensures UsefulDirectives(a + ['\n'] + (line + ['\n'] + b)) == UsefulDirectives(a)
      + (Useful([line]) + UsefulDirectives(b))
  {
    SplitAppend(a, line + ['\n'] + b, '\n');
    SplitAppend(line, b, '\n');
    SplitPiece(line, '\n');
    UsefulAppend(Split(a, '\n'), [line] + Split(b, '\n'));
    UsefulAppend([line], Split(b, '\n'));
  }

  /** A comment or a blank line anywhere, in one file or in both, changes no comparison. */
  lemma CommentsDoNotCount(a: string, comment: string, b: string, other: string)
    requires '\n' !in comment && (Trim(comment) == "" || StartsWith(Trim(comment), "#"))
    ensures Same(a + ['\n'] + (comment + ['\n'] + b), other) == Same(a + ['\n'] + b, other)
  {
    UsefulAround(a, comment, b);
    UsefulOfOne(comment);
    SplitAppend(a, b, '\n');
    UsefulAppend(Split(a, '\n'), Split(b, '\n'));
    assert [] + UsefulDirectives(b) == UsefulDirectives(b);
  }

  /** Nor does the indentation of any line. */
  lemma IndentationDoesNotCount(a: string, line: string, indented: string, b: string, other: string)
    requires '\n' !in line && '\n' !in indented && Trim(line) == Trim(indented)
    ensures Same(a + ['\n'] + (line + ['\n'] + b), other) == Same(a + ['\n'] + (indented + ['\n'] + b), other)
  {
    UsefulAround(a, line, b);
    UsefulAround(a, indented, b);
    UsefulOfOne(line);
    UsefulOfOne(indented);
  }

  /** Every group of the lines closes. */
  ghost predicate Closed(items: seq<Item>) {
    forall k | 0 <= k < |items| && items[k].Group? :: Depth(items[k].lines) <= 0
  }

  lemma {:induction false} FlatAppend(a: seq<Item>, b: seq<Item>)
    ensures Flat(a + b) == Flat(a) + Flat(b)
  {
    if a == [] {
      assert a + b == b;
    } else {
      assert (a + b)[1..] == a[1..] + b;
      FlatAppend(a[1..], b);
    }
  }

  lemma GroupingThen(a: seq<Item>, b: seq<Item>)
    requires IsGrouping(a) && IsGrouping(b) && Closed(a)
    ensures IsGrouping(a + b)
  {
    var both := a + b;
    forall k | 0 <= k < |both|
      ensures if both[k].Plain? then !IsOpening(both[k].line) else IsGroup(both[k].lines, k == |both| - 1)
    {
      if k < |a| {
        assert both[k] == a[k];
      } else {
        assert both[k] == b[k - |a|];
      }
    }
  }

  /** Closed groups are cut the same whatever follows them. */
  lemma ClosedThen(a: seq<string>, b: seq<string>)
    requires Closed(Items(a))
    ensures Items(a + b) == Items(a) + Items(b)
  {
    ItemsCutTheLines(a);
    ItemsCutTheLines(b);
    FlatAppend(Items(a), Items(b));
    GroupingThen(Items(a), Items(b));
    OnlyOneCut(Items(a) + Items(b));
  }

  lemma KeysTogether(a: seq<Item>, b: seq<Item>)
    ensures Keys(DirectivesOf(a + b)) == Keys(DirectivesOf(a)) + Keys(DirectivesOf(b))
  {
    var all := DirectivesOf(a + b);
    forall key
      ensures key in Keys(all) <==> key in Keys(DirectivesOf(a)) + Keys(DirectivesOf(b))
    {
      if key in Keys(DirectivesOf(a)) {
        var i := ItemOfKey(a, key);
        KeyAt(a + b, i);
      }
      if key in Keys(DirectivesOf(b)) {
        var i := ItemOfKey(b, key);
        KeyAt(a + b, |a| + i);
      }
      if key in Keys(all) {
        var i := ItemOfKey(a + b, key);
        if i < |a| {
          KeyAt(a, i);
        } else {
          KeyAt(b, i - |a|);
        }
      }
    }
  }

  /** Two stretches of closed directives compare the same in either order. */
  lemma OrderDoesNotCount(a: string, b: string)
    requires Closed(Items(UsefulDirectives(a))) && Closed(Items(UsefulDirectives(b)))
    ensures Same(a + ['\n'] + b, b + ['\n'] + a)
  {
    var x, y := UsefulDirectives(a), UsefulDirectives(b);
    SplitAppend(a, b, '\n');
    SplitAppend(b, a, '\n');
    UsefulAppend(Split(a, '\n'), Split(b, '\n'));
    UsefulAppend(Split(b, '\n'), Split(a, '\n'));
    ClosedThen(x, y);
    ClosedThen(y, x);
    KeysTogether(Items(x), Items(y));
    KeysTogether(Items(y), Items(x));
    ComparedIsEmpty(DirectivesOf(Items(x + y)), DirectivesOf(Items(y + x)));
  }

  // --- forged lines ----------------------------------------------------------

  function PlainOnes(lines: seq<string>): seq<Item> {
    seq(|lines|, i requires 0 <= i < |lines| => Plain(lines[i]))
  }

  function KeyLines(items: seq<Item>): seq<string> {
    seq(|items|, i requires 0 <= i < |items| => Key(items[i]))
  }

  /** A file with every group written on one line, as its key is. */
  function Flattened(text: string): string {
    Join(KeyLines(Items(UsefulDirectives(text))), "\n")
  }

  predicate IsUseful(line: string) {
    line != "" && Trimmed(line) && !StartsWith(line, "#")
  }

  lemma {:induction false} UsefulStay(lines: seq<string>)
    requires forall i | 0 <= i < |lines| :: IsUseful(lines[i])
    ensures Useful(lines) == lines
  {
    if lines != [] {
      UsefulStay(lines[1..]);
      TrimOfTrimmed(lines[0]);
      assert lines == [lines[0]] + lines[1..];
    }
  }

  lemma {:induction false} UsefulWithout(lines: seq<string>, c: char)
    requires Without(lines, c)
    ensures Without(Useful(lines), c)
  {
    if lines != [] {
      UsefulWithout(lines[1..], c);
      TrimIsTrimmed(lines[0]);
    }
  }

  lemma {:induction false} ItemsOfPlain(lines: seq<string>)
    requires forall i | 0 <= i < |lines| :: !IsOpening(lines[i])
    ensures Items(lines) == PlainOnes(lines)
  {
    if lines != [] {
      ItemsOfPlain(lines[1..]);
      assert PlainOnes(lines) == [Plain(lines[0])] + PlainOnes(lines[1..]);
    }
  }

  lemma {:induction false} LineOfItem(items: seq<Item>, k: nat)
    requires k < |items| && items[k].Plain?
    ensures items[k].line in Flat(items)
  {
    if k > 0 {
      LineOfItem(items[1..], k - 1);
    }
  }

  /** A group's key reads as a plain line: useful, opening nothing. */
  lemma GroupKeyIsPlain(lines: seq<string>)
    requires lines != []
    ensures IsUseful(Stringify(lines)) && !IsOpening(Stringify(lines)) && '\n' !in Stringify(lines)
  {
    StringifyIsOneLine(lines);
    EndsOf(Stringify(lines), ']');
    assert Stringify(lines)[0] == '[';
  }

  lemma KeysArePlain(text: string, k: nat)
    requires k < |Items(UsefulDirectives(text))|
    ensures var key := Key(Items(UsefulDirectives(text))[k]); IsUseful(key) && !IsOpening(key) && '\n' !in key
  {
    var items := Items(UsefulDirectives(text));
    ItemsCutTheLines(UsefulDirectives(text));
    if items[k].Group? {
      GroupKeyIsPlain(items[k].lines);
    } else {
      LineOfItem(items, k);
      SplitWithout(text, '\n');
      UsefulWithout(Split(text, '\n'), '\n');
    }
  }

  lemma FlattenedLines(text: string)
    ensures var keys := KeyLines(Items(UsefulDirectives(text)));
      UsefulDirectives(Flattened(text)) == keys && Items(keys) == PlainOnes(keys)
  {
    var keys := KeyLines(Items(UsefulDirectives(text)));
    forall k | 0 <= k < |keys|
      ensures IsUseful(keys[k]) && !IsOpening(keys[k]) && '\n' !in keys[k]
    {
      KeysArePlain(text, k);
    }
    ItemsOfPlain(keys);
    UsefulStay(keys);
    if keys == [] {
      UsefulOfOne("");
    } else {
      SplitJoin(keys, '\n');
    }
  }

  lemma SameKeys(items: seq<Item>)
    ensures Keys(DirectivesOf(PlainOnes(KeyLines(items)))) == Keys(DirectivesOf(items))
  {
    var plain := PlainOnes(KeyLines(items));
    forall key
      ensures key in Keys(DirectivesOf(plain)) <==> key in Keys(DirectivesOf(items))
    {
      if key in Keys(DirectivesOf(plain)) {
        var i := ItemOfKey(plain, key);
        KeyAt(items, i);
      }
      if key in Keys(DirectivesOf(items)) {
        var i := ItemOfKey(items, key);
        KeyAt(plain, i);
      }
    }
  }

  lemma SameWhenAllPlain(items: seq<Item>)
    ensures SetOf(PlainOnes(KeyLines(items))) == SetOf(items) <==> forall item | item in SetOf(items) :: item.Plain?
  {
    var plain := PlainOnes(KeyLines(items));
    if forall item | item in SetOf(items) :: item.Plain? {
      forall i | 0 <= i < |items|
        ensures plain[i] == items[i]
      {
        assert items[i] in SetOf(items);
      }
      assert plain == items;
    } else {
      var item :| item in SetOf(items) && !item.Plain?;
      assert item !in SetOf(plain);
    }
  }

  /**
   * A line written as the list of a group's lines is taken for that group: any file
   * compares equal to itself with all its groups so written.
   */
  lemma ForgedLineIsTakenForItsGroup(text: string)
    ensures Same(Flattened(text), text)
    ensures ItemSet(Flattened(text)) == ItemSet(text) <==> forall item | item in ItemSet(text) :: item.Plain?
  {
    var items := Items(UsefulDirectives(text));
    FlattenedLines(text);
    SameKeys(items);
    SameWhenAllPlain(items);
    ComparedIsEmpty(DirectivesOf(PlainOnes(KeyLines(items))), DirectivesOf(items));
  }

  lemma BlockIsAGroup(lines: seq<string>)
    requires lines == ["route {", "}"]
    ensures Items(lines) == [Group(lines)]
  {
    assert "route {"[5..] == " {" && "route {"[5..6] == " ";
    assert lines[..1] == ["route {"] && lines[..1][..0] == [];
    assert Braces("route {") == 1;
    assert Depth(lines[..1]) == 1;
    OnlyOneCut([Group(lines)]);
    assert [Group(lines)][1..] == [] && Flat([Group(lines)]) == lines;
  }

  lemma TwoLines(x: string, y: string)
    requires IsUseful(x) && IsUseful(y) && '\n' !in x && '\n' !in y
    ensures UsefulDirectives(x + "\n" + y) == [x, y]
  {
    assert [x, y][1..] == [y];
    assert Join([x, y], "\n") == x + "\n" + y;
    SplitJoin([x, y], '\n');
    UsefulStay([x, y]);
  }

  lemma Regroup(b: string, q: string, x: string, c: string, y: string, e: string)
    ensures b + ((q + (x + q)) + (c + ((q + (y + q)) + e))) == (b + q) + x + (q + c + q) + y + (q + e)
  {
  }

  lemma TwoQuoted(x: string, y: string, bracket: string, quote: string, comma: string, end: string)
    requires Escapes(x) == x && Escapes(y) == y
    requires bracket == "[" && quote == "\"" && comma == "," && end == "]"
    ensures Stringify([x, y]) == (bracket + quote) + x + (quote + comma + quote) + y + (quote + end)
  {
    assert [x, y][1..] == [y] && [y][1..] == [];
    assert Quoted(x) == quote + (x + quote) && Quoted(y) == quote + (y + quote);
    assert Rest([]) == end;
    assert Rest([y]) == comma + ((quote + (y + quote)) + end);
    assert Stringify([x, y]) == bracket + ((quote + (x + quote)) + (comma + ((quote + (y + quote)) + end)));
    Regroup(bracket, quote, x, comma, y, end);
  }

  lemma FlattenedGroup(text: string, lines: seq<string>)
    requires Items(UsefulDirectives(text)) == [Group(lines)]
    ensures Flattened(text) == Stringify(lines) && Group(lines) in ItemSet(text)
  {
    assert KeyLines([Group(lines)]) == [Stringify(lines)];
    assert [Group(lines)][0] in ItemSet(text);
  }

  lemma ForgedPair(text: string, forged: string, lines: seq<string>)
    requires Items(UsefulDirectives(text)) == [Group(lines)] && forged == Stringify(lines)
    ensures Same(forged, text) && ItemSet(forged) != ItemSet(text)
  {
    ForgedLineIsTakenForItsGroup(text);
    FlattenedGroup(text, lines);
  }

  lemma BlockKey(x: string, y: string, forged: string)
    requires x == "route {" && y == "}" && forged == "[\"" + x + "\",\"" + y + "\"]"
    ensures forged == Stringify([x, y])
  {
    NothingToEscape(x);
    NothingToEscape(y);
    TwoQuoted(x, y, "[", "\"", ",", "]");
    assert "[" + "\"" == "[\"" && "\"" + "," + "\"" == "\",\"" && "\"" + "]" == "\"]";
  }

  lemma BlockItems(x: string, y: string, block: string)
    requires x == "route {" && y == "}" && block == x + "\n" + y
    ensures Items(UsefulDirectives(block)) == [Group([x, y])]
  {
    TwoLines(x, y);
    BlockIsAGroup([x, y]);
  }

  /** Such a pair: one line of JSON against a block it has nothing to do with. */
  lemma ForgedExample(forged: string, block: string)
    requires forged == "[\"route {\",\"}\"]" && block == "route {\n}"
    ensures Same(forged, block) && ItemSet(forged) != ItemSet(block)
  {
    var x, y := "route {", "}";
    assert forged == "[\"" + x + "\",\"" + y + "\"]";
    assert block == x + "\n" + y;
    BlockKey(x, y, forged);
    BlockItems(x, y, block);
    ForgedPair(block, forged, [x, y]);
  }
}
