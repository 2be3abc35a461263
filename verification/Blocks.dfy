/**
 * What the comparison makes of whole texts, told in the words of the files: a
 * route or a handle counts by its lines in order, everything else as a set of
 * lines.
 */
module Blocks {
  import opened Text
  import opened JsonArrays
  import opened Comparison

  // --- the lines that count --------------------------------------------------

  /** A text of lines that are neither blank, nor comments, nor indented is exactly those lines. */
  lemma UsefulReadsBack(lines: seq<string>)
    requires lines != [] && Without(lines, '\n') && forall i | 0 <= i < |lines| :: IsUseful(lines[i])
    ensures UsefulDirectives(Join(lines, "\n")) == lines
  {
    SplitJoin(lines, '\n');
    UsefulStay(lines);
  }

  lemma UsefulTogether(a: string, b: string)
    ensures UsefulDirectives(a + "\n" + b) == UsefulDirectives(a) + UsefulDirectives(b)
  {
    SplitAppend(a, b, '\n');
    UsefulAppend(Split(a, '\n'), Split(b, '\n'));
  }

  lemma OneUsefulLine(line: string)
    requires IsUseful(line) && '\n' !in line
    ensures UsefulDirectives(line) == [line]
  {
    SplitPiece(line, '\n');
    UsefulStay([line]);
  }

  // --- braces ----------------------------------------------------------------

  lemma {:induction false} BracesCount(line: string)
    ensures Braces(line) == multiset(line)['{'] as int - multiset(line)['}'] as int
  {
    if line != "" {
      BracesCount(line[1..]);
      assert line == [line[0]] + line[1..];
    }
  }

  lemma {:induction false} DepthTogether(a: seq<string>, b: seq<string>)
    ensures Depth(a + b) == Depth(a) + Depth(b)
  {
    if b == [] {
      assert a + b == a;
    } else {
      assert (a + b)[..|a + b| - 1] == a + b[..|b| - 1];
      DepthTogether(a, b[..|b| - 1]);
    }
  }

  /** Every closing brace closes one opened before it among the lines, and all are closed. */
  ghost predicate Balanced(lines: seq<string>) {
    Depth(lines) == 0 && forall n | 0 <= n <= |lines| :: Depth(lines[..n]) >= 0
  }

  // --- what opens a group ----------------------------------------------------

  /** Nothing, or white space and then anything on the one line. */
  predicate IsMatcher(inner: string) {
    inner == "" || (IsSpace(inner[0]) && forall i | 1 <= i < |inner| :: !EndsLine(inner[i]))
  }

  function OpeningLine(word: string, inner: string): string {
    word + (inner + "{")
  }

  lemma OpensSplits(line: string, word: string, inner: string)
    requires line == OpeningLine(word, inner)
    ensures StartsWith(line, word) && EndsWith(line[|word|..], "{") && line[|word|..|line| - 1] == inner
  {
    assert line[|word|..] == inner + "{";
    EndsOf(inner + "{", '{');
  }

  lemma OpensExactly(line: string, word: string)
    ensures Opens(line, word) <==> exists inner :: IsMatcher(inner) && line == OpeningLine(word, inner)
  {
    if Opens(line, word) {
      var inner := line[|word|..|line| - 1];
      EndsOf(line[|word|..], '{');
      assert line == OpeningLine(word, inner);
      assert IsMatcher(inner);
    }
    if inner :| IsMatcher(inner) && line == OpeningLine(word, inner) {
      OpensSplits(line, word, inner);
    }
  }

  /** A line opens a group exactly when it is `route` or `handle`, a matcher or none, and a brace. */
  lemma OpeningExactly(line: string)
    ensures IsOpening(line) <==>
      || (exists inner :: IsMatcher(inner) && line == OpeningLine("route", inner))
      || (exists inner :: IsMatcher(inner) && line == OpeningLine("handle", inner))
  {
    OpensExactly(line, "route");
    OpensExactly(line, "handle");
  }

  // --- one block -------------------------------------------------------------

  /** An opening line of either word, all on one line, that opens one brace more than it closes. */
  predicate IsBlockOpening(line: string, word: string, inner: string) {
    && (word == "route" || word == "handle")
    && IsMatcher(inner) && '\n' !in inner && multiset(inner)['{'] == multiset(inner)['}']
    && line == OpeningLine(word, inner)
  }

  function BlockText(opening: string, body: string): string {
    opening + "\n" + (body + "\n" + "}")
  }

  lemma WordIsPlain(word: string)
    requires word == "route" || word == "handle"
    ensures '{' !in word && '}' !in word && '\n' !in word
    ensures word != "" && !IsSpace(word[0]) && word[0] != '#'
  {
  }

  lemma OneBraceMore(word: string, inner: string)
    requires '{' !in word && '}' !in word && multiset(inner)['{'] == multiset(inner)['}']
    ensures Braces(OpeningLine(word, inner)) == 1
  {
    var line, brace := OpeningLine(word, inner), "{";
    BracesCount(line);
    assert multiset(line) == multiset(word) + (multiset(inner) + multiset(brace));
    assert multiset(word)['{'] == 0 && multiset(word)['}'] == 0;
    assert multiset(brace) == multiset{'{'};
  }

  lemma OpeningIsUseful(word: string, inner: string)
    requires word != "" && !IsSpace(word[0]) && word[0] != '#' && '\n' !in word && '\n' !in inner
    ensures IsUseful(OpeningLine(word, inner)) && '\n' !in OpeningLine(word, inner)
  {
    var line := OpeningLine(word, inner);
    assert line[|line| - 1] == '{' && line[0] == word[0];
  }

  lemma OpeningBraces(line: string, word: string, inner: string)
    requires IsBlockOpening(line, word, inner)
    ensures Braces(line) == 1 && IsOpening(line) && IsUseful(line) && '\n' !in line
  {
    WordIsPlain(word);
    OneBraceMore(word, inner);
    OpeningIsUseful(word, inner);
    OpensExactly(line, word);
  }

  lemma BlockLines(opening: string, word: string, inner: string, body: string)
    requires IsBlockOpening(opening, word, inner)
    ensures UsefulDirectives(BlockText(opening, body)) == [opening] + (UsefulDirectives(body) + ["}"])
  {
    OpeningBraces(opening, word, inner);
    UsefulTogether(opening, body + "\n" + "}");
    UsefulTogether(body, "}");
    OneUsefulLine(opening);
    OneUsefulLine("}");
  }

  lemma BlockStaysOpen(opening: string, body: seq<string>)
    requires Braces(opening) == 1 && Balanced(body)
    ensures StaysOpen([opening] + (body + ["}"]))
  {
    var lines := [opening] + (body + ["}"]);
    forall n | 0 < n < |lines|
      ensures Depth(lines[..n]) > 0
    {
      assert lines[..n] == [opening] + body[..n - 1];
      DepthTogether([opening], body[..n - 1]);
      DepthOfOne(opening);
    }
  }

  lemma BlockCloses(opening: string, body: seq<string>)
    requires Braces(opening) == 1 && Balanced(body)
    ensures Depth([opening] + (body + ["}"])) == 0
  {
    DepthTogether([opening], body + ["}"]);
    DepthTogether(body, ["}"]);
    DepthOfOne(opening);
    DepthOfOne("}");
    assert Braces("}") == -1;
  }

  lemma BlockIsOneGroup(opening: string, body: seq<string>)
    requires IsOpening(opening) && Braces(opening) == 1 && Balanced(body)
    ensures var lines := [opening] + (body + ["}"]); Items(lines) == [Group(lines)]
  {
    var lines := [opening] + (body + ["}"]);
    BlockStaysOpen(opening, body);
    BlockCloses(opening, body);
    OnlyOneCut([Group(lines)]);
    assert [Group(lines)][1..] == [] && Flat([Group(lines)]) == lines;
  }

  lemma DepthOfOne(line: string)
    ensures Depth([line]) == Braces(line)
  {
    assert [line][..0] == [];
  }

  lemma OneGroupEach(a: seq<string>, b: seq<string>)
    ensures Compared(DirectivesOf([Group(a)]), DirectivesOf([Group(b)])) == Divergence([], []) <==> a == b
  {
    var x, y := DirectivesOf([Group(a)]), DirectivesOf([Group(b)]);
    assert x[0].key == Stringify(a) && y[0].key == Stringify(b);
    assert Keys(x) == {Stringify(a)} && Keys(y) == {Stringify(b)};
    ComparedIsEmpty(x, y);
    if Stringify(a) == Stringify(b) {
      StringifyIsInjective(a, b);
    }
  }

  /**
   * Two files that are each one route or handle, with or without a matcher,
   * around a balanced body, compare equal exactly when their opening lines are
   * the same and the useful lines of their bodies are the same list.
   */
  lemma BlocksCompareInOrder(opening: string, word: string, inner: string, body: string,
      opening': string, word': string, inner': string, body': string)
    requires IsBlockOpening(opening, word, inner) && Balanced(UsefulDirectives(body))
    requires IsBlockOpening(opening', word', inner') && Balanced(UsefulDirectives(body'))
    ensures Same(BlockText(opening, body), BlockText(opening', body')) <==>
      opening == opening' && UsefulDirectives(body) == UsefulDirectives(body')
  {
    var a, b := UsefulDirectives(body), UsefulDirectives(body');
    OpeningBraces(opening, word, inner);
    OpeningBraces(opening', word', inner');
    BlockLines(opening, word, inner, body);
    BlockLines(opening', word', inner', body');
    BlockIsOneGroup(opening, a);
    BlockIsOneGroup(opening', b);
    OneGroupEach([opening] + (a + ["}"]), [opening'] + (b + ["}"]));
    SameAround(opening, a, opening', b);
  }

  lemma SameAround(x: string, a: seq<string>, y: string, b: seq<string>)
    ensures [x] + (a + ["}"]) == [y] + (b + ["}"]) <==> x == y && a == b
  {
    var s, t := [x] + (a + ["}"]), [y] + (b + ["}"]);
    if s == t {
      assert s[0] == x && t[0] == y && s[1..|s| - 1] == a && t[1..|t| - 1] == b;
    }
  }

  // --- everything else -------------------------------------------------------

  ghost predicate OpensNothing(lines: seq<string>) {
    forall i | 0 <= i < |lines| :: !IsOpening(lines[i])
  }

  function LineSet(text: string): set<string> {
    set line | line in UsefulDirectives(text)
  }

  lemma PlainKeys(lines: seq<string>)
    ensures Keys(DirectivesOf(PlainOnes(lines))) == set line | line in lines
  {
    var plain := PlainOnes(lines);
    forall key
      ensures key in Keys(DirectivesOf(plain)) <==> key in lines
    {
      if key in Keys(DirectivesOf(plain)) {
        var i := ItemOfKey(plain, key);
        assert lines[i] == key;
      }
      if key in lines {
        var i :| 0 <= i < |lines| && lines[i] == key;
        KeyAt(plain, i);
      }
    }
  }

  /**
   * Files whose lines open no route and no handle compare equal exactly when they have
   * the same useful lines, in any order and number.
   */
  lemma PlainFilesCompareAsSets(a: string, b: string)
    requires OpensNothing(UsefulDirectives(a)) && OpensNothing(UsefulDirectives(b))
    ensures Same(a, b) <==> LineSet(a) == LineSet(b)
  {
    ItemsOfPlain(UsefulDirectives(a));
    ItemsOfPlain(UsefulDirectives(b));
    PlainKeys(UsefulDirectives(a));
    PlainKeys(UsefulDirectives(b));
    ComparedIsEmpty(DirectivesOf(PlainOnes(UsefulDirectives(a))), DirectivesOf(PlainOnes(UsefulDirectives(b))));
  }

  lemma OtherWordsOpenNothing(lines: seq<string>)
    requires forall line | line in lines :: !StartsWith(line, "route") && !StartsWith(line, "handle")
    ensures OpensNothing(lines)
  {
    forall i | 0 <= i < |lines|
      ensures !IsOpening(lines[i])
    {
      assert lines[i] in lines;
    }
  }

  lemma SameMembers(x: seq<string>, y: seq<string>)
    requires multiset(x) == multiset(y)
    ensures forall line :: line in x <==> line in y
  {
    forall line
      ensures line in x <==> line in y
    {
      assert line in x <==> line in multiset(x);
      assert line in y <==> line in multiset(y);
    }
  }

  /** So a block whose lines begin with neither word compares equal to itself with its lines in any other order. */
  lemma OtherBlocksCompareInAnyOrder(a: string, b: string)
    requires multiset(UsefulDirectives(a)) == multiset(UsefulDirectives(b))
    requires forall line | line in UsefulDirectives(a) :: !StartsWith(line, "route") && !StartsWith(line, "handle")
    ensures Same(a, b)
  {
    SameMembers(UsefulDirectives(a), UsefulDirectives(b));
    OtherWordsOpenNothing(UsefulDirectives(a));
    OtherWordsOpenNothing(UsefulDirectives(b));
    PlainFilesCompareAsSets(a, b);
  }

  // --- what a refusal shows --------------------------------------------------

  lemma {:induction false} MissingTexts(directives: seq<Directive>, keys: set<string>, text: string)
    ensures text in Missing(directives, keys) <==>
      exists i | 0 <= i < |directives| :: directives[i].text == text && directives[i].key !in keys
  {
    if directives != [] {
      MissingTexts(directives[1..], keys, text);
      if text in Missing(directives[1..], keys) {
        var i :| 0 <= i < |directives[1..]| && directives[1..][i].text == text && directives[1..][i].key !in keys;
        assert directives[i + 1] == directives[1..][i];
      }
      if i :| 0 <= i < |directives| && directives[i].text == text && directives[i].key !in keys && i > 0 {
        assert directives[1..][i - 1] == directives[i];
      }
    }
  }

  /**
   * What is shown as lost is what the file in place has and the generated one has not,
   * and the other way round for what is added.
   */
  lemma LostAndAdded(current: string, generated: string, text: string)
    ensures var a, g := Items(UsefulDirectives(current)), Items(UsefulDirectives(generated));
      var d := Compared(DirectivesOf(a), DirectivesOf(g));
      && (text in d.lost <==> exists i | 0 <= i < |a| ::
            DirectiveOf(a[i]).text == text && Key(a[i]) !in Keys(DirectivesOf(g)))
      && (text in d.added <==> exists i | 0 <= i < |g| ::
            DirectiveOf(g[i]).text == text && Key(g[i]) !in Keys(DirectivesOf(a)))
  {
    var a, g := Items(UsefulDirectives(current)), Items(UsefulDirectives(generated));
    MissingTexts(DirectivesOf(a), Keys(DirectivesOf(g)), text);
    MissingTexts(DirectivesOf(g), Keys(DirectivesOf(a)), text);
    assert forall i | 0 <= i < |a| :: DirectivesOf(a)[i] == DirectiveOf(a[i]) && DirectiveOf(a[i]).key == Key(a[i]);
    assert forall i | 0 <= i < |g| :: DirectivesOf(g)[i] == DirectiveOf(g[i]) && DirectiveOf(g[i]).key == Key(g[i]);
  }

  predicate IsFlatLine(line: string) {
    line != "}" && !EndsWith(line, "{")
  }

  lemma ShownNext(group: seq<string>, line: string)
    requires group != []
    ensures Shown(group + [line]) ==
      Shown(group) + (if EndsWith(group[|group| - 1], "{") || line == "}" then " " else "; ") + line
  {
    assert (group + [line])[..|group|] == group;
  }

  lemma {:induction false} ShownBody(opening: string, body: seq<string>)
    requires EndsWith(opening, "{") && body != [] && forall i | 0 <= i < |body| :: IsFlatLine(body[i])
    ensures Shown([opening] + body) == opening + " " + Join(body, "; ")
  {
    var n := |body| - 1;
    var front, last := body[..n], body[n];
    assert [opening] + body == ([opening] + front) + [last];
    ShownNext([opening] + front, last);
    if n == 0 {
      assert [opening] + front == [opening] && body == [last];
    } else {
      ShownBody(opening, front);
      assert body == front + [last] && ([opening] + front)[n] == front[n - 1];
      JoinAppend(front, [last], "; ");
      Regroup(opening, " ", Join(front, "; "), "; ", last);
    }
  }

  lemma Regroup(a: string, b: string, c: string, d: string, e: string)
    ensures (a + b + c) + d + e == a + b + (c + d + e)
  {
  }

  /**
   * A block with nothing nested is shown on one line: its opening, its lines with
   * semicolons between them, its brace.
   */
  lemma BlockIsShownOnOneLine(opening: string, body: seq<string>)
    requires EndsWith(opening, "{") && body != [] && forall i | 0 <= i < |body| :: IsFlatLine(body[i])
    ensures Shown([opening] + body + ["}"]) == opening + " " + Join(body, "; ") + " }"
  {
    ShownBody(opening, body);
    ShownNext([opening] + body, "}");
    Trailing(opening + " " + Join(body, "; "));
  }

  lemma Trailing(a: string)
    ensures a + " " + "}" == a + " }"
  {
  }
}
