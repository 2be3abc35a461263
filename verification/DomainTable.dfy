/** The table of customer domains: built from the sites' manifests, printed for Caddy, read back to decide. */
module DomainTable {
  import opened Options
  import opened Text
  import opened ZoneNames
  import opened DomainNames

  // --- building --------------------------------------------------------------

  /**
   * A manifest's `domain` block: whether it is active, its name and its aliases, none
   * for what is not text or not a list.
   */
  datatype DomainBlock = DomainBlock(active: bool, name: Option<string>, aliases: Option<seq<Option<string>>>)

  datatype SiteReading =
    | NoManifest(oldDescriptor: bool)
    | Unreadable
    | Malformed
    | Manifest(block: Option<DomainBlock>)

  datatype Folder = Folder(name: string, isDirectory: bool, reading: SiteReading)

  datatype Error =
    | MigrationNeeded(slug: string)
    | ReadFailed(slug: string)
    | BadManifest(slug: string)
    | InvalidDomain(slug: string, declared: string)
    | UnexpectedSlug(slug: string)
    | ClaimedTwice(domain: string, first: string, second: string)

  predicate IsValidSlug(slug: string) {
    && slug != "" && IsLowerAlnum(slug[0])
    && (forall i | 0 <= i < |slug| :: IsLabelChar(slug[i]) || slug[i] == '.' || slug[i] == '_')
    && !Includes(slug, "..")
  }

  function Spelling(declared: string): string {
    DropDot(Lower(Trim(declared)))
  }

  function DeclaredNames(block: DomainBlock): seq<Option<string>> {
    [block.name] + if block.aliases.Some? then block.aliases.value else []
  }

  /** A declared name that stops the build: text, not blank, and no domain. */
  predicate IsWrong(name: Option<string>) {
    name.Some? && Spelling(name.value) != "" && !IsValidDomain(Spelling(name.value))
  }

  function FormsAt(name: Option<string>): set<string> {
    if name.None? || Spelling(name.value) == "" then {} else SetOf(DomainForms(Spelling(name.value)))
  }

  function UnionOf(sets: seq<set<string>>): set<string> {
    if sets == [] then {} else UnionOf(sets[..|sets| - 1]) + sets[|sets| - 1]
  }

  lemma {:induction false} InUnion(sets: seq<set<string>>, d: string)
    ensures d in UnionOf(sets) <==> exists i | 0 <= i < |sets| :: d in sets[i]
  {
    if sets != [] {
      var front := sets[..|sets| - 1];
      InUnion(front, d);
      if d in UnionOf(front) {
        var i :| 0 <= i < |front| && d in front[i];
        assert d in sets[i];
      }
    }
  }

  lemma UnionNext(sets: seq<set<string>>, i: nat)
    requires i < |sets|
    ensures UnionOf(sets[..i + 1]) == UnionOf(sets[..i]) + sets[i]
  {
    assert sets[..i + 1][..i] == sets[..i];
  }

  function FormSets(names: seq<Option<string>>): seq<set<string>> {
    seq(|names|, i requires 0 <= i < |names| => FormsAt(names[i]))
  }

  /** Every form the names declare. */
  function Forms(names: seq<Option<string>>): set<string> {
    UnionOf(FormSets(names))
  }

  ghost predicate NoneWrong(names: seq<Option<string>>) {
    forall i | 0 <= i < |names| :: !IsWrong(names[i])
  }

  function Active(r: SiteReading): seq<Option<string>> {
    if r.Manifest? && r.block.Some? && r.block.value.active then DeclaredNames(r.block.value) else []
  }

  ghost predicate Reads(r: SiteReading) {
    && !r.Unreadable? && !r.Malformed? && (r.NoManifest? ==> !r.oldDescriptor)
    && NoneWrong(Active(r))
  }

  /** An active manifest names the text, as its domain or as an alias. */
  predicate Declares(r: SiteReading, text: string) {
    && r.Manifest? && r.block.Some? && r.block.value.active
    && (|| r.block.value.name == Some(text)
        || (r.block.value.aliases.Some? && Some(text) in r.block.value.aliases.value))
  }

  lemma DeclaredIsNamed(r: SiteReading, text: string)
    ensures Declares(r, text) <==> Some(text) in Active(r)
  {
  }

  /** The error is true of the site's reading. */
  predicate TrueOf(e: Error, slug: string, r: SiteReading) {
    match e
    case MigrationNeeded(s) => s == slug && r == NoManifest(true)
    case ReadFailed(s) => s == slug && r == Unreadable
    case BadManifest(s) => s == slug && r == Malformed
    case InvalidDomain(s, declared) =>
      s == slug && Declares(r, declared) && Spelling(declared) != "" && !IsValidDomain(Spelling(declared))
    case _ => false
  }

  /** The forms of one declared name: none for what is not text or is blank. */
  method ReadName(slug: string, name: Option<string>) returns (kept: Result<seq<string>, Error>)
    ensures kept.Ok? <==> !IsWrong(name)
    ensures kept.Ok? ==> SetOf(kept.value) == FormsAt(name)
    ensures kept.Err? ==> name.Some? && kept.error == InvalidDomain(slug, name.value)
  {
    if name == None {
      return Ok([]);
    }
    var domain := Spelling(name.value);
    if domain == "" {
      return Ok([]);
    }
    if !IsValidDomain(domain) {
      return Err(InvalidDomain(slug, name.value));
    }
    return Ok(DomainForms(domain));
  }

  /** The forms of the names, unless one of them is wrong. */
  method ReadNames(slug: string, names: seq<Option<string>>) returns (kept: Result<seq<string>, Error>)
    ensures kept.Ok? <==> NoneWrong(names)
    ensures kept.Ok? ==> SetOf(kept.value) == Forms(names)
    ensures kept.Err? ==> exists i | 0 <= i < |names| ::
      IsWrong(names[i]) && kept.error == InvalidDomain(slug, names[i].value)
  {
    var forms: seq<string> := [];
    ghost var sets := FormSets(names);
    for i := 0 to |names|
      invariant NoneWrong(names[..i])
      invariant SetOf(forms) == UnionOf(sets[..i])
    {
      UnionNext(sets, i);
      NoneWrongNext(names, i);
      var more := ReadName(slug, names[i]);
      if more.Err? {
        return more;
      }
      SetOfBoth(forms, more.value);
      forms := forms + more.value;
    }
    assert sets[..|sets|] == sets && names[..|names|] == names;
    return Ok(forms);
  }

  lemma NoneWrongNext(names: seq<Option<string>>, i: nat)
    requires i < |names|
    ensures NoneWrong(names[..i + 1]) <==> NoneWrong(names[..i]) && !IsWrong(names[i])
    ensures IsWrong(names[i]) ==> !NoneWrong(names)
  {
    assert names[..i + 1] == names[..i] + [names[i]];
    assert names[..i + 1][i] == names[i];
    assert forall j | 0 <= j < i :: names[..i + 1][j] == names[..i][j];
  }

  function SetOf(s: seq<string>): set<string> {
    set d | d in s
  }

  lemma SetOfBoth(a: seq<string>, b: seq<string>)
    ensures SetOf(a + b) == SetOf(a) + SetOf(b)
  {
  }

  /** The forms of a site's declared domains; only an active block declares any. */
  method ReadSite(slug: string, r: SiteReading) returns (domains: Result<seq<string>, Error>)
    ensures domains.Ok? <==> Reads(r)
    ensures domains.Ok? ==> SetOf(domains.value) == Forms(Active(r))
    ensures domains.Err? ==> TrueOf(domains.error, slug, r)
  {
    match r {
      case NoManifest(oldDescriptor) =>
        return if oldDescriptor then Err(MigrationNeeded(slug)) else Ok([]);
      case Unreadable =>
        return Err(ReadFailed(slug));
      case Malformed =>
        return Err(BadManifest(slug));
      case Manifest(block) =>
        if block == None || !block.value.active {
          return Ok([]);
        }
        domains := ReadNames(slug, DeclaredNames(block.value));
        assert Active(r) == DeclaredNames(block.value);
        if domains.Err? {
          DeclaredIsNamed(r, domains.error.declared);
        }
    }
  }

  predicate Claims(f: Folder, domain: string) {
    f.isDirectory && domain in Forms(Active(f.reading))
  }

  /** The folder called `slug` claims the domain. */
  predicate Claimed(folders: seq<Folder>, domain: string, slug: string) {
    exists f | f in folders :: f.name == slug && Claims(f, domain)
  }

  ghost predicate Admissible(folders: seq<Folder>) {
    && (forall f | f in folders && f.isDirectory :: IsValidSlug(f.name) && Reads(f.reading))
    && (forall f, g, d | f in folders && g in folders && Claims(f, d) && Claims(g, d) :: f.name == g.name)
  }

  ghost predicate IsTableOf(table: map<string, string>, folders: seq<Folder>) {
    && (forall d, slug | Claimed(folders, d, slug) :: d in table && table[d] == slug)
    && (forall d | d in table :: Claimed(folders, d, table[d]))
  }

  /** `lines` is the table with the domains given to `slug`. */
  ghost predicate Extends(lines: map<string, string>, table: map<string, string>, domains: set<string>, slug: string) {
    && lines.Keys == table.Keys + domains
    && forall d | d in lines :: lines[d] == if d in domains then slug else table[d]
  }

  ghost predicate Free(table: map<string, string>, domains: set<string>, slug: string) {
    forall d | d in domains && d in table :: table[d] == slug
  }

  lemma DomainAdded(table: map<string, string>, lines: map<string, string>, domains: seq<string>, j: nat, slug: string)
    requires j < |domains| && (domains[j] in lines ==> lines[domains[j]] == slug)
    requires Free(table, SetOf(domains[..j]), slug) && Extends(lines, table, SetOf(domains[..j]), slug)
    ensures Free(table, SetOf(domains[..j + 1]), slug)
    ensures Extends(lines[domains[j] := slug], table, SetOf(domains[..j + 1]), slug)
  {
    SetOfBoth(domains[..j], [domains[j]]);
    assert domains[..j + 1] == domains[..j] + [domains[j]];
    assert SetOf([domains[j]]) == {domains[j]};
  }

  /** One site's domains put in the table, unless one of them is another's. */
  method AddSite(table: map<string, string>, slug: string,
      domains: seq<string>) returns (r: Result<map<string, string>, Error>)
    ensures r.Ok? <==> Free(table, SetOf(domains), slug)
    ensures r.Ok? ==> Extends(r.value, table, SetOf(domains), slug)
    ensures r.Err? ==> exists d | d in domains && d in table ::
      table[d] != slug && r.error == ClaimedTwice(d, table[d], slug)
  {
    var lines := table;
    for j := 0 to |domains|
      invariant Free(table, SetOf(domains[..j]), slug)
      invariant Extends(lines, table, SetOf(domains[..j]), slug)
    {
      var domain := domains[j];
      if domain in lines && lines[domain] != slug {
        assert domain in domains && domain in table && table[domain] != slug;
        return Err(ClaimedTwice(domain, lines[domain], slug));
      }
      DomainAdded(table, lines, domains, j, slug);
      lines := lines[domain := slug];
    }
    assert domains[..|domains|] == domains;
    return Ok(lines);
  }

  /** The error is true of the folders: of one of them, or of two that claim the same domain. */
  ghost predicate Justified(e: Error, folders: seq<Folder>) {
    || (exists f | f in folders ::
          f.isDirectory && (TrueOf(e, f.name, f.reading) || (e == UnexpectedSlug(f.name) && !IsValidSlug(f.name))))
    || (&& e.ClaimedTwice? && e.first != e.second
        && Claimed(folders, e.domain, e.first) && Claimed(folders, e.domain, e.second))
  }

  /** The build succeeds exactly when the folders are admissible, and then gives each domain its only claimant. */
  method BuildTable(folders: seq<Folder>) returns (r: Result<map<string, string>, Error>)
    ensures r.Ok? <==> Admissible(folders)
    ensures r.Ok? ==> IsTableOf(r.value, folders)
    ensures r.Err? ==> Justified(r.error, folders)
  {
    var lines: map<string, string> := map[];
    for i := 0 to |folders|
      invariant Admissible(folders[..i])
      invariant IsTableOf(lines, folders[..i])
    {
      var f := folders[i];
      assert folders[..i + 1] == folders[..i] + [f];
      if !f.isDirectory {
        FileSkipped(folders[..i], f, lines);
        continue;
      }
      if !IsValidSlug(f.name) {
        Blocked(folders, i);
        return Err(UnexpectedSlug(f.name));
      }
      var domains := ReadSite(f.name, f.reading);
      if domains.Err? {
        Blocked(folders, i);
        return Err(domains.error);
      }
      var added := AddSite(lines, f.name, domains.value);
      if added.Err? {
        NotFree(folders, i, lines, domains.value);
        BothClaim(folders, i, lines, domains.value, added.error);
        return Err(added.error);
      }
      SiteAdded(folders[..i], f, lines, added.value);
      lines := added.value;
    }
    assert folders[..|folders|] == folders;
    return Ok(lines);
  }

  lemma FileSkipped(front: seq<Folder>, f: Folder, lines: map<string, string>)
    requires Admissible(front) && IsTableOf(lines, front) && !f.isDirectory
    ensures Admissible(front + [f]) && IsTableOf(lines, front + [f])
  {
    forall d, slug
      ensures Claimed(front + [f], d, slug) <==> Claimed(front, d, slug)
    {
    }
  }

  lemma Blocked(folders: seq<Folder>, i: nat)
    requires i < |folders| && folders[i].isDirectory && (!IsValidSlug(folders[i].name) || !Reads(folders[i].reading))
    ensures !Admissible(folders)
  {
    assert folders[i] in folders;
  }

  lemma NotFree(folders: seq<Folder>, i: nat, lines: map<string, string>, domains: seq<string>)
    requires i < |folders| && folders[i].isDirectory && IsTableOf(lines, folders[..i])
    requires SetOf(domains) == Forms(Active(folders[i].reading)) && !Free(lines, SetOf(domains), folders[i].name)
    ensures !Admissible(folders)
  {
    var d :| d in SetOf(domains) && d in lines && lines[d] != folders[i].name;
    assert Claimed(folders[..i], d, lines[d]);
    var g :| g in folders[..i] && g.name == lines[d] && Claims(g, d);
    assert g in folders && folders[i] in folders && Claims(folders[i], d);
  }

  lemma ClaimedEarlier(folders: seq<Folder>, i: nat, d: string, slug: string)
    requires i <= |folders| && Claimed(folders[..i], d, slug)
    ensures Claimed(folders, d, slug)
  {
    var g :| g in folders[..i] && g.name == slug && Claims(g, d);
    assert g in folders;
  }

  lemma ClaimedAt(folders: seq<Folder>, i: nat, d: string)
    requires i < |folders| && Claims(folders[i], d)
    ensures Claimed(folders, d, folders[i].name)
  {
    assert folders[i] in folders;
  }

  lemma BothClaim(folders: seq<Folder>, i: nat, lines: map<string, string>, domains: seq<string>, e: Error)
    requires i < |folders| && folders[i].isDirectory && IsTableOf(lines, folders[..i])
    requires SetOf(domains) == Forms(Active(folders[i].reading))
    requires e.ClaimedTwice? && e.domain in domains && e.domain in lines && lines[e.domain] != folders[i].name
    requires e == ClaimedTwice(e.domain, lines[e.domain], folders[i].name)
    ensures Justified(e, folders)
  {
    ClaimedEarlier(folders, i, e.domain, e.first);
    assert e.domain in SetOf(domains);
    ClaimedAt(folders, i, e.domain);
  }

  lemma ClaimedNext(front: seq<Folder>, f: Folder)
    ensures forall d, slug :: Claimed(front + [f], d, slug) <==>
      Claimed(front, d, slug) || (f.name == slug && Claims(f, d))
  {
    forall d, slug
      ensures Claimed(front + [f], d, slug) <==> Claimed(front, d, slug) || (f.name == slug && Claims(f, d))
    {
    }
  }

  lemma StillAdmissible(front: seq<Folder>, f: Folder, lines: map<string, string>)
    requires Admissible(front) && IsTableOf(lines, front)
    requires f.isDirectory && IsValidSlug(f.name) && Reads(f.reading) && Free(lines, Forms(Active(f.reading)), f.name)
    ensures Admissible(front + [f])
  {
    var all := front + [f];
    forall g, h, d | g in all && h in all && Claims(g, d) && Claims(h, d)
      ensures g.name == h.name
    {
      assert g in front ==> Claimed(front, d, g.name);
      assert h in front ==> Claimed(front, d, h.name);
    }
  }

  lemma TableNext(front: seq<Folder>, f: Folder, lines: map<string, string>, added: map<string, string>)
    requires IsTableOf(lines, front) && f.isDirectory
    requires Free(lines, Forms(Active(f.reading)), f.name) && Extends(added, lines, Forms(Active(f.reading)), f.name)
    ensures IsTableOf(added, front + [f])
  {
    ClaimedNext(front, f);
    var forms := Forms(Active(f.reading));
    assert forall d :: Claims(f, d) <==> d in forms;
    forall d, slug | Claimed(front + [f], d, slug)
      ensures d in added && added[d] == slug
    {
      assert d in forms || (d in lines && lines[d] == slug);
      assert d in added.Keys;
    }
    forall d | d in added
      ensures Claimed(front + [f], d, added[d])
    {
      assert d in added.Keys;
    }
  }

  lemma SiteAdded(front: seq<Folder>, f: Folder, lines: map<string, string>, added: map<string, string>)
    requires Admissible(front) && IsTableOf(lines, front)
    requires f.isDirectory && IsValidSlug(f.name) && Reads(f.reading)
    requires Free(lines, Forms(Active(f.reading)), f.name) && Extends(added, lines, Forms(Active(f.reading)), f.name)
    ensures Admissible(front + [f]) && IsTableOf(added, front + [f])
  {
    StillAdmissible(front, f, lines);
    TableNext(front, f, lines, added);
  }

  /** Neither success nor the table depends on the order the folders are listed in. */
  lemma OrderDoesNotMatter(a: seq<Folder>, b: seq<Folder>, ta: map<string, string>, tb: map<string, string>)
    requires forall f :: f in a <==> f in b
    ensures Admissible(a) <==> Admissible(b)
    ensures IsTableOf(ta, a) && IsTableOf(tb, b) ==> ta == tb
  {
    forall d, slug
      ensures Claimed(a, d, slug) <==> Claimed(b, d, slug)
    {
    }
  }

  // --- what a manifest declares ----------------------------------------------

  /** The domain a declared text spells, or its www form when it has two labels. */
  predicate IsFormOf(d: string, domain: string) {
    d == domain || (|Split(domain, '.')| == 2 && d == "www." + domain)
  }

  /** The manifest declares the domain, as one of its names or a form of it. */
  ghost predicate DeclaresDomain(r: SiteReading, d: string) {
    exists text :: Declares(r, text) && Spelling(text) != "" && IsFormOf(d, Spelling(text))
  }

  lemma FormsAreDeclared(r: SiteReading, d: string)
    ensures d in Forms(Active(r)) <==> DeclaresDomain(r, d)
  {
    var names := Active(r);
    var sets := FormSets(names);
    InUnion(sets, d);
    if d in Forms(names) {
      var i :| 0 <= i < |sets| && d in sets[i];
      assert sets[i] == FormsAt(names[i]) && names[i] in names;
      DeclaredIsNamed(r, names[i].value);
      FormIsOf(d, Spelling(names[i].value));
    }
    if text :| Declares(r, text) && Spelling(text) != "" && IsFormOf(d, Spelling(text)) {
      DeclaredIsNamed(r, text);
      var i :| 0 <= i < |names| && names[i] == Some(text);
      FormIsOf(d, Spelling(text));
      assert sets[i] == FormsAt(names[i]);
    }
  }

  lemma FormIsOf(d: string, domain: string)
    ensures d in SetOf(DomainForms(domain)) <==> IsFormOf(d, domain)
  {
  }

  /**
   * Every form of every name and alias an active manifest declares is a key of
   * the table, its folder's, and there are no others.
   */
  lemma TableHoldsWhatIsDeclared(folders: seq<Folder>, table: map<string, string>, d: string, slug: string)
    requires IsTableOf(table, folders)
    ensures d in table && table[d] == slug <==>
      exists f | f in folders :: f.isDirectory && f.name == slug && DeclaresDomain(f.reading, d)
  {
    forall f | f in folders
      ensures d in Forms(Active(f.reading)) <==> DeclaresDomain(f.reading, d)
    {
      FormsAreDeclared(f.reading, d);
    }
    if d in table && table[d] == slug {
      assert Claimed(folders, d, slug);
    }
    if f :| f in folders && f.isDirectory && f.name == slug && DeclaresDomain(f.reading, d) {
      assert Claims(f, d) && Claimed(folders, d, slug);
    }
  }

  /**
   * A manifest stops the build exactly when it declares, and it is active, a text that
   * spells something no domain is.
   */
  lemma ReadsUnlessWrong(block: Option<DomainBlock>)
    ensures Reads(Manifest(block)) <==>
      forall text | Declares(Manifest(block), text) :: Spelling(text) == "" || IsValidDomain(Spelling(text))
  {
    var names := Active(Manifest(block));
    forall text
      ensures Declares(Manifest(block), text) <==> Some(text) in names
    {
      DeclaredIsNamed(Manifest(block), text);
    }
    if NoneWrong(names) {
      forall text | Some(text) in names
        ensures !IsWrong(Some(text))
      {
        var i :| 0 <= i < |names| && names[i] == Some(text);
      }
    } else {
      var i :| 0 <= i < |names| && IsWrong(names[i]);
      assert names[i] in names;
    }
  }

  /** White space around it, capitals and a final dot do not count in how a domain is declared. */
  lemma SpelledAnyWay(text: string, domain: string)
    requires domain != "" && domain[|domain| - 1] != '.'
    requires Lower(Trim(text)) == domain || Lower(Trim(text)) == domain + "."
    ensures Spelling(text) == domain
  {
    var lowered := Lower(Trim(text));
    if lowered == domain + "." {
      assert lowered[|lowered| - 1] == '.' && lowered[..|lowered| - 1] == domain;
    }
  }
}
