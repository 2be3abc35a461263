/** The table printed and read back, and the decision for any host. */
module DomainDecisions {
  import opened Options
  import opened Text
  import opened CachedFiles
  import opened DomainNames
  import DomainTable
  import Zone

  // --- printing --------------------------------------------------------------

  function EntryLine(table: map<string, string>, domain: string): string
    requires domain in table
  {
    "\t" + domain + " " + table[domain]
  }

  /** The keys in the order they are printed, each once. */
  ghost predicate Lists(order: seq<string>, table: map<string, string>) {
    forall d :: d in order <==> d in table
  }

  function EntryLines(order: seq<string>, table: map<string, string>): seq<string>
    requires forall d | d in order :: d in table
  {
    seq(|order|, i requires 0 <= i < |order| => EntryLine(table, order[i]))
  }

  /** A comment, then an entry a line. */
  function Render(comment: string, order: seq<string>, table: map<string, string>): string
    requires forall d | d in order :: d in table
  {
    Join([comment] + EntryLines(order, table), "\n")
  }

  // --- reading ---------------------------------------------------------------

  function FirstField(line: string): string {
    if line == "" || IsSpace(line[0]) then "" else [line[0]] + FirstField(line[1..])
  }

  function Unquote(s: string): string {
    var t := if StartsWith(s, "\"") then s[1..] else s;
    if EndsWith(t, "\"") then t[..|t| - 1] else t
  }

  /** The domain a line authorizes; none for a blank line, a comment, the default entry, a regular expression. */
  function KeyOf(line: string): Option<string> {
    var t := Trim(line);
    if t == "" || StartsWith(t, "#") then None
    else
      var key := Unquote(FirstField(t));
      if key == "" || key == "default" || StartsWith(key, "~") then None else Some(Lower(key))
  }

  function Somes(keys: seq<Option<string>>): set<string> {
    set i | 0 <= i < |keys| && keys[i].Some? :: keys[i].value
  }

  function KeysOf(lines: seq<string>): seq<Option<string>> {
    seq(|lines|, i requires 0 <= i < |lines| => KeyOf(lines[i]))
  }

  function ParsedTable(content: string): set<string> {
    Somes(KeysOf(Split(content, '\n')))
  }

  lemma SomesNext(keys: seq<Option<string>>, i: nat)
    requires i < |keys|
    ensures Somes(keys[..i + 1]) == Somes(keys[..i]) + (if keys[i].Some? then {keys[i].value} else {})
  {
    var all, front := keys[..i + 1], keys[..i];
    assert all == front + [keys[i]];
    forall x
      ensures x in Somes(all) <==> x in Somes(front) || keys[i] == Some(x)
    {
      if keys[i] == Some(x) {
        assert all[i] == Some(x);
      }
      if x in Somes(front) {
        var j :| 0 <= j < i && front[j] == Some(x);
        assert all[j] == Some(x);
      }
    }
  }

  method ParseDomainTable(content: string) returns (table: set<string>)
    ensures table == ParsedTable(content)
  {
    table := {};
    var lines := Split(content, '\n');
    ghost var keys := KeysOf(lines);
    for i := 0 to |lines|
      invariant table == Somes(keys[..i])
    {
      SomesNext(keys, i);
      var line := Trim(lines[i]);
      if line == "" || StartsWith(line, "#") {
        continue;
      }
      var key := Unquote(FirstField(line));
      if key == "" || key == "default" || StartsWith(key, "~") {
        continue;
      }
      table := table + {Lower(key)};
    }
    assert keys[..|keys|] == keys;
  }

  // --- the round trip --------------------------------------------------------

  lemma {:induction false} FieldBeforeSpace(word: string, rest: string)
    requires forall i | 0 <= i < |word| :: !IsSpace(word[i])
    ensures FirstField(word + " " + rest) == word
  {
    var line := word + " " + rest;
    if word == "" {
      assert line[0] == ' ';
    } else {
      assert line[1..] == word[1..] + " " + rest;
      FieldBeforeSpace(word[1..], rest);
      assert word == [word[0]] + word[1..];
    }
  }

  lemma TrimEntry(rest: string)
    requires rest != "" && !IsSpace(rest[0]) && !IsSpace(rest[|rest| - 1])
    ensures Trim("\t" + rest) == rest
  {
    assert ("\t" + rest)[1..] == rest;
    assert TrimStart(rest) == rest;
    assert TrimStart("\t" + rest) == TrimStart(rest);
  }

  /** The line printed for a domain reads as that domain. */
  lemma EntryReadsBack(domain: string, slug: string)
    requires IsForm(domain) && DomainTable.IsValidSlug(slug)
    ensures KeyOf("\t" + domain + " " + slug) == Some(domain)
  {
    var rest := domain + " " + slug;
    assert "\t" + domain + " " + slug == "\t" + rest;
    assert rest[|rest| - 1] == slug[|slug| - 1];
    TrimEntry(rest);
    EndsOf(rest, '#');
    FieldBeforeSpace(domain, slug);
    NotQuoted(domain);
    LowerIsItself(domain);
  }

  lemma NotQuoted(domain: string)
    requires IsForm(domain)
    ensures Unquote(domain) == domain && domain != "default" && !StartsWith(domain, "~")
  {
    EndsOf(domain, '"');
    EndsOf(domain, '~');
  }

  lemma HashReadsAsNothing(line: string)
    requires StartsWith(line, "#")
    ensures KeyOf(line) == None
  {
    TrimEndShape(line);
    assert TrimStart(line) == line;
    var t := TrimEnd(line);
    if t != "" {
      EndsOf(t, '#');
    }
  }

  ghost predicate Printable(table: map<string, string>) {
    forall d | d in table :: IsForm(d) && DomainTable.IsValidSlug(table[d])
  }

  lemma EntryIsOneLine(domain: string, slug: string)
    requires IsForm(domain) && DomainTable.IsValidSlug(slug)
    ensures '\n' !in "\t" + domain + " " + slug
  {
    assert forall i | 0 <= i < |domain| :: domain[i] != '\n';
    assert forall i | 0 <= i < |slug| :: slug[i] != '\n';
  }

  lemma SomesOfAll(order: seq<string>, keys: seq<Option<string>>)
    requires |keys| == |order| + 1 && keys[0] == None
    requires forall i | 0 <= i < |order| :: keys[i + 1] == Some(order[i])
    ensures Somes(keys) == set d | d in order
  {
    forall d | d in order
      ensures d in Somes(keys)
    {
      var i :| 0 <= i < |order| && order[i] == d;
      assert keys[i + 1] == Some(d);
    }
    forall d | d in Somes(keys)
      ensures d in order
    {
      var i :| 0 <= i < |keys| && keys[i] == Some(d);
      assert keys[i] == Some(order[i - 1]);
    }
  }

  lemma LinesReadBack(comment: string, entries: seq<string>, order: seq<string>)
    requires KeyOf(comment) == None && '\n' !in comment && |entries| == |order|
    requires Without(entries, '\n') && KeysOf(entries) == seq(|order|, i requires 0 <= i < |order| => Some(order[i]))
    ensures ParsedTable(Join([comment] + entries, "\n")) == set d | d in order
  {
    var lines := [comment] + entries;
    var keys := KeysOf(lines);
    assert Without(lines, '\n');
    SplitJoin(lines, '\n');
    forall i | 0 <= i < |order|
      ensures keys[i + 1] == Some(order[i])
    {
      assert lines[i + 1] == entries[i] && KeysOf(entries)[i] == Some(order[i]);
    }
    SomesOfAll(order, keys);
  }

  /** Whatever order the entries are printed in, the text reads back as exactly the table's domains. */
  lemma TableReadsBack(comment: string, order: seq<string>, table: map<string, string>)
    requires StartsWith(comment, "#") && '\n' !in comment
    requires Lists(order, table) && Printable(table)
    ensures ParsedTable(Render(comment, order, table)) == table.Keys
  {
    var entries := EntryLines(order, table);
    HashReadsAsNothing(comment);
    forall i | 0 <= i < |order|
      ensures KeyOf(entries[i]) == Some(order[i]) && '\n' !in entries[i]
    {
      assert order[i] in table;
      EntryReadsBack(order[i], table[order[i]]);
      EntryIsOneLine(order[i], table[order[i]]);
    }
    assert KeysOf(entries) == seq(|order|, i requires 0 <= i < |order| => Some(order[i]));
    LinesReadBack(comment, entries, order);
  }

  /** A table built from admissible folders holds only forms and slugs that print and read back. */
  lemma TableIsPrintable(table: map<string, string>, folders: seq<DomainTable.Folder>)
    requires DomainTable.Admissible(folders) && DomainTable.IsTableOf(table, folders)
    ensures Printable(table)
  {
    forall d | d in table
      ensures IsForm(d) && DomainTable.IsValidSlug(table[d])
    {
      var f :| f in folders && f.name == table[d] && DomainTable.Claims(f, d);
      ClaimedIsForm(f, d);
    }
  }

  lemma ClaimedIsForm(f: DomainTable.Folder, d: string)
    requires DomainTable.Claims(f, d) && DomainTable.Reads(f.reading)
    ensures IsForm(d)
  {
    var names := DomainTable.Active(f.reading);
    var sets := DomainTable.FormSets(names);
    DomainTable.InUnion(sets, d);
    var i :| 0 <= i < |sets| && d in sets[i];
    assert d in DomainTable.FormsAt(names[i]) && !DomainTable.IsWrong(names[i]);
    FormsOfValid(DomainTable.Spelling(names[i].value));
  }

  // --- deciding --------------------------------------------------------------

  datatype Verdict = InvalidHost | Zoned(decision: Zone.Decision) | UnknownDomain | ActiveDomain

  predicate Allows(v: Verdict) {
    v.ActiveDomain? || (v.Zoned? && v.decision.allowed)
  }

  datatype Tables = Tables(zone: Zone.State, table: Cached<set<string>>)

  /** A question: what Caddy passed along, the time, and each file as it stands whenever it may be read. */
  datatype Question = Question(raw: Option<string>, now: int, policy: Reading, first: Reading, second: Reading,
      third: Reading, disk: Reading)

  function AskOf(host: string, q: Question): Zone.Ask {
    Zone.Ask(host, q.now, q.policy, q.first, q.second, q.third)
  }

  /** The decision for a normalized host: the zone's own names first, then the table. */
  function JudgedHost(cfg: Zone.Config, ttl: int, s: Tables, host: string, q: Question): (Tables, Verdict) {
    var o := Zone.Decided(cfg, s.zone, AskOf(host, q));
    if o.decision.Some? then (s.(zone := o.state), Zoned(o.decision.value))
    else
      var table := Got(s.table, ParsedTable, {}, q.now, ttl, q.disk);
      (s.(table := table), if host in table.value then ActiveDomain else UnknownDomain)
  }

  function Judged(cfg: Zone.Config, ttl: int, s: Tables, q: Question): (Tables, Verdict) {
    match NormalizeHost(q.raw)
    case None => (s, InvalidHost)
    case Some(host) => JudgedHost(cfg, ttl, s, host, q)
  }

  class Table {
    const ttl: int
    const zone: Zone.ZoneDecider
    const table: CachedFile<set<string>>

    ghost predicate Valid()
      reads this, zone
    {
      && zone.Valid() && zone.names != table && (zone.onDemand as object) != table
      && table.parse == ParsedTable && table.absent == {}
    }

    ghost function Contents(): Tables
      reads this, zone, zone.onDemand, zone.names, table
    {
      Tables(zone.Contents(), table.State())
    }

    constructor (ttl: int, zone: Zone.ZoneDecider)
      requires zone.Valid()
      ensures Valid() && this.ttl == ttl && this.zone == zone && fresh(table)
      ensures Contents() == Tables(old(zone.Contents()), Cached({}, 0, true))
    {
      this.ttl, this.zone := ttl, zone;
      table := new CachedFile<set<string>>(ttl, ParsedTable, {});
    }

    method DecideHost(host: string, q: Question) returns (v: Verdict)
      requires Valid()
      modifies zone, zone.onDemand, zone.names, table
      ensures Valid()
      ensures (Contents(), v) == JudgedHost(zone.cfg, ttl, old(Contents()), host, q)
    {
      ghost var before := Contents();
      var zoned, said := zone.Decide(AskOf(host, q));
      assert table.State() == before.table;
      if zoned.Some? {
        return Zoned(zoned.value);
      }
      OutsideUntouched(zone.cfg, before.zone, AskOf(host, q));
      var known := table.Get(q.now, ttl, q.disk);
      if host !in known {
        return UnknownDomain;
      }
      return ActiveDomain;
    }

    method Decide(q: Question) returns (v: Verdict)
      requires Valid()
      modifies zone, zone.onDemand, zone.names, table
      ensures Valid()
      ensures (Contents(), v) == Judged(zone.cfg, ttl, old(Contents()), q)
    {
      var host := NormalizeHost(q.raw);
      if host == None {
        return InvalidHost;
      }
      v := DecideHost(host.value, q);
    }
  }

  /** The zone says nothing, and changes nothing, exactly for a host outside it. */
  lemma OutsideUntouched(cfg: Zone.Config, s: Zone.State, ask: Zone.Ask)
    ensures Zone.Decided(cfg, s, ask).decision.None? <==> !Zone.InZone(cfg, ask.host)
    ensures !Zone.InZone(cfg, ask.host) ==> Zone.Decided(cfg, s, ask).state == s
  {
  }

  // --- over a run ------------------------------------------------------------

  const OPENED: Tables := Tables(Zone.OPENED, Cached({}, 0, true))

  function Reached(cfg: Zone.Config, ttl: int, questions: seq<Question>): Tables {
    if questions == [] then OPENED
    else Judged(cfg, ttl, Reached(cfg, ttl, questions[..|questions| - 1]), questions[|questions| - 1]).0
  }

  function LastVerdict(cfg: Zone.Config, ttl: int, questions: seq<Question>): Verdict
    requires questions != []
  {
    Judged(cfg, ttl, Reached(cfg, ttl, questions[..|questions| - 1]), questions[|questions| - 1]).1
  }

  /** The question is about a domain name that is not the zone's. */
  predicate AsksTable(cfg: Zone.Config, q: Question) {
    NormalizeHost(q.raw).Some? && !Zone.InZone(cfg, NormalizeHost(q.raw).value)
  }

  function TableCalls(cfg: Zone.Config, ttl: int, questions: seq<Question>): seq<Call> {
    if questions == [] then []
    else
      var last := questions[|questions| - 1];
      TableCalls(cfg, ttl, questions[..|questions| - 1])
        + if AsksTable(cfg, last) then [Call(last.now, ttl, last.disk)] else []
  }

  lemma StepOnTable(cfg: Zone.Config, ttl: int, s: Tables, host: string, q: Question)
    ensures JudgedHost(cfg, ttl, s, host, q).0.table ==
      if Zone.InZone(cfg, host) then s.table else Got(s.table, ParsedTable, {}, q.now, ttl, q.disk)
  {
    OutsideUntouched(cfg, s.zone, AskOf(host, q));
  }

  lemma {:induction false} TableIsCached(cfg: Zone.Config, ttl: int, questions: seq<Question>)
    ensures Reached(cfg, ttl, questions).table == After(ParsedTable, {}, TableCalls(cfg, ttl, questions))
  {
    if questions != [] {
      var front, last := questions[..|questions| - 1], questions[|questions| - 1];
      TableIsCached(cfg, ttl, front);
      if NormalizeHost(last.raw).Some? {
        StepOnTable(cfg, ttl, Reached(cfg, ttl, front), NormalizeHost(last.raw).value, last);
      }
      var calls := TableCalls(cfg, ttl, front);
      assert calls + [] == calls;
      assert (calls + [Call(last.now, ttl, last.disk)])[..|calls|] == calls;
    }
  }

  /** The reading of the table's file the last decision rests on. */
  function Standing(cfg: Zone.Config, ttl: int, questions: seq<Question>): Reading {
    LastGood(Attempts(ParsedTable, {}, TableCalls(cfg, ttl, questions)))
  }

  /** A host outside the zone is allowed exactly when the last reading of the table that did not fail holds it. */
  lemma AllowedWhenInTable(cfg: Zone.Config, ttl: int, questions: seq<Question>)
    requires questions != [] && AsksTable(cfg, questions[|questions| - 1])
    ensures Allows(LastVerdict(cfg, ttl, questions)) <==>
      NormalizeHost(questions[|questions| - 1].raw).value in Meaning(Standing(cfg, ttl, questions), ParsedTable, {})
  {
    TableIsCached(cfg, ttl, questions);
    ValueIsLastGoodReading(ParsedTable, {}, TableCalls(cfg, ttl, questions));
  }

  /**
   * When that reading is a table built from the sites and printed, the host is allowed
   * exactly when some active manifest declares it.
   */
  lemma AllowedWhenDeclared(cfg: Zone.Config, ttl: int, questions: seq<Question>, folders: seq<DomainTable.Folder>,
      table: map<string, string>, comment: string, order: seq<string>)
    requires questions != [] && AsksTable(cfg, questions[|questions| - 1])
    requires DomainTable.Admissible(folders) && DomainTable.IsTableOf(table, folders)
    requires Lists(order, table) && StartsWith(comment, "#") && '\n' !in comment
    requires Standing(cfg, ttl, questions) == Content(Render(comment, order, table))
    ensures Allows(LastVerdict(cfg, ttl, questions)) <==>
      exists f | f in folders :: DomainTable.Claims(f, NormalizeHost(questions[|questions| - 1].raw).value)
  {
    var host := NormalizeHost(questions[|questions| - 1].raw).value;
    AllowedWhenInTable(cfg, ttl, questions);
    TableIsPrintable(table, folders);
    TableReadsBack(comment, order, table);
    if host in table {
      assert DomainTable.Claimed(folders, host, table[host]);
    }
    if f :| f in folders && DomainTable.Claims(f, host) {
      assert DomainTable.Claimed(folders, host, f.name);
    }
  }
}
