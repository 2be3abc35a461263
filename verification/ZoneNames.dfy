/** The list of the zone's sites: which names it may hold, how it is written, how it is read. */
module ZoneNames {
  import opened Text

  predicate IsLabelChar(c: char) {
    IsLowerAlnum(c) || c == '-'
  }

  /** One letter or digit, then perhaps up to 61 more characters and a last letter or digit. */
  predicate ZoneLabel(s: string) {
    && s != "" && IsLowerAlnum(s[0])
    && (|s| == 1 || (
          && |s| - 2 <= 61 && IsLowerAlnum(s[|s| - 1])
          && forall i | 1 <= i < |s| - 1 :: IsLabelChar(s[i])))
  }

  /** The writer's test: empty, a dash at either end, another character inside, or more than 63. */
  predicate ShellSkips(name: string) {
    || name == ""
    || StartsWith(name, "-")
    || EndsWith(name, "-")
    || (exists i | 0 <= i < |name| :: !IsLabelChar(name[i]))
    || |name| > 63
  }

  /** The writer keeps exactly the names the reader accepts. */
  lemma ShellKeepsLabels(name: string)
    ensures ZoneLabel(name) <==> !ShellSkips(name)
  {
    if name != "" {
      EndsOf(name, '-');
      if !ShellSkips(name) {
        assert IsLabelChar(name[0]) && IsLabelChar(name[|name| - 1]);
      }
    }
  }

  function Parsed(lines: seq<string>): set<string> {
    set i | 0 <= i < |lines| && ZoneLabel(Trim(lines[i])) :: Trim(lines[i])
  }

  function ParsedNames(content: string): set<string> {
    Parsed(Split(content, '\n'))
  }

  method ParseZoneNames(content: string) returns (labels: set<string>)
    ensures labels == ParsedNames(content)
  {
    labels := {};
    var lines := Split(content, '\n');
    for i := 0 to |lines|
      invariant labels == Parsed(lines[..i])
    {
      ParsedNext(lines, i);
      var line := Trim(lines[i]);
      if line == "" || StartsWith(line, "#") {
        continue;
      }
      if ZoneLabel(line) {
        labels := labels + {line};
      }
    }
    assert lines[..|lines|] == lines;
  }

  lemma ParsedNext(lines: seq<string>, i: nat)
    requires i < |lines|
    ensures Parsed(lines[..i + 1]) == Parsed(lines[..i]) + (if ZoneLabel(Trim(lines[i])) then {Trim(lines[i])} else {})
  {
    var all, front := lines[..i + 1], lines[..i];
    assert all == front + [lines[i]];
    forall x
      ensures x in Parsed(all) <==> x in Parsed(front) || (ZoneLabel(Trim(lines[i])) && x == Trim(lines[i]))
    {
      if ZoneLabel(Trim(lines[i])) && x == Trim(lines[i]) {
        assert ZoneLabel(Trim(all[i])) && Trim(all[i]) == x;
      }
      if x in Parsed(front) {
        var j :| 0 <= j < |front| && ZoneLabel(Trim(front[j])) && Trim(front[j]) == x;
        assert all[j] == front[j];
      }
    }
  }

  /** The comment lines, then the names the shell keeps, each on its own line. */
  function ListText(comments: seq<string>, names: seq<string>): string {
    Join(comments + Kept(names) + [""], "\n")
  }

  function Kept(names: seq<string>): (r: seq<string>)
    ensures forall x :: x in r <==> x in names && !ShellSkips(x)
  {
    if names == [] then []
    else
      assert names == [names[0]] + names[1..];
      (if ShellSkips(names[0]) then [] else [names[0]]) + Kept(names[1..])
  }

  lemma LabelIsOneLine(s: string)
    requires ZoneLabel(s)
    ensures '\n' !in s && Trim(s) == s
  {
    TrimOfTrimmed(s);
  }

  lemma CommentIsNoLabel(s: string)
    requires StartsWith(s, "#")
    ensures !ZoneLabel(Trim(s))
  {
    assert TrimStart(s) == s;
    TrimEndShape(s);
    var t := TrimEnd(s);
    assert t != "" ==> t[0] == s[0];
  }

  /** A list written from any folder names, newlines in them included, reads back as exactly those that are labels. */
  lemma ListReadsBack(comments: seq<string>, names: seq<string>)
    requires forall c | c in comments :: StartsWith(c, "#") && '\n' !in c
    ensures ParsedNames(ListText(comments, names)) == set n | n in names && ZoneLabel(n)
  {
    var lines := comments + Kept(names) + [""];
    forall n
      ensures ZoneLabel(n) <==> !ShellSkips(n)
    {
      ShellKeepsLabels(n);
    }
    forall n | n in Kept(names)
      ensures '\n' !in n && Trim(n) == n
    {
      LabelIsOneLine(n);
    }
    forall i | 0 <= i < |lines|
      ensures '\n' !in lines[i]
    {
      if |comments| <= i < |lines| - 1 {
        assert lines[i] in Kept(names);
      }
    }
    SplitJoin(lines, '\n');
    LinesParse(comments, Kept(names));
  }

  lemma LinesParse(comments: seq<string>, kept: seq<string>)
    requires forall c | c in comments :: StartsWith(c, "#")
    requires forall n | n in kept :: ZoneLabel(n) && Trim(n) == n
    ensures Parsed(comments + kept + [""]) == set n | n in kept
  {
    var lines := comments + kept + [""];
    forall c | c in comments
      ensures !ZoneLabel(Trim(c))
    {
      CommentIsNoLabel(c);
    }
    forall n | n in kept
      ensures n in Parsed(lines)
    {
      var i :| 0 <= i < |kept| && kept[i] == n;
      assert lines[|comments| + i] == n;
    }
    forall n | n in Parsed(lines)
      ensures n in kept
    {
      var i :| 0 <= i < |lines| && ZoneLabel(Trim(lines[i])) && Trim(lines[i]) == n;
      assert i >= |comments|;
      assert lines[|lines| - 1] == "";
      assert lines[i] in kept;
    }
  }

  /** Whether a TLS policy turns on-demand issuance on. */
  predicate OnDemandPolicy(content: string) {
    exists i | 0 <= i < |Split(content, '\n')| :: Trim(Split(content, '\n')[i]) == "on_demand"
  }

  lemma {:induction false} PolicyOfLines(lines: seq<string>)
    requires lines != [] && Without(lines, '\n')
    ensures OnDemandPolicy(Join(lines, "\n")) <==> exists i | 0 <= i < |lines| :: Trim(lines[i]) == "on_demand"
  {
    SplitJoin(lines, '\n');
  }

  /**
   * A policy is on demand exactly when one of its lines says so, white space around it
   * aside; a longer line does not.
   */
  lemma PolicyIsOnDemand(a: seq<string>, line: string, b: seq<string>)
    requires Without(a + [line] + b, '\n') && forall i | 0 <= i < |a + b| :: Trim((a + b)[i]) != "on_demand"
    ensures OnDemandPolicy(Join(a + [line] + b, "\n")) <==> Trim(line) == "on_demand"
  {
    var lines := a + [line] + b;
    PolicyOfLines(lines);
    forall i | 0 <= i < |lines| && i != |a|
      ensures Trim(lines[i]) != "on_demand"
    {
      assert lines[i] == (a + b)[if i < |a| then i else i - 1];
    }
    assert lines[|a|] == line;
  }
}
