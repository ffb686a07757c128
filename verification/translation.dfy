/** `Transifex`: synchronises the plugin's translations. `reset` removes the
    compiled ".mo" files of the languages directory, `pull` fetches the
    latest ".po" sources into the shared staging directory (`tx pull -a`),
    `move` copies them into the languages directory, and `convert` compiles
    each ".po" with `msgfmt`, deleting the source when it compiles. The shell
    commands are oracles: their `system` result is a parameter, and on
    success they have their documented effect, on failure none. */
module Translation {
  import opened Platform
  import opened Files

  /** `File.basename(po_file, '.po')` + ".mo": the file `msgfmt` writes. */
  function MoName(po: string): string {
    BasenameWithout(po, ".po") + ".mo"
  }

  /** The ".po" file that compiles to the ".mo" file `mo`. */
  function PoName(mo: string): string {
    BasenameWithout(mo, ".mo") + ".po"
  }

  /** The directory after `rm -rf` of the glob `*.mo` in the directory. */
  function WithoutMo(files: map<string, string>): map<string, string> {
    map k | k in files && !GlobMatches(k, ".mo") :: files[k]
  }

  /** The directory after `cp` of the glob `*.po` of the staging directory into the directory. */
  function WithStagedPo(files: map<string, string>, staged: map<string, string>): map<string, string> {
    files + map k | k in staged && GlobMatches(k, ".po") :: staged[k]
  }

  /** No name matches both `*.po` and `*.mo`. */
  lemma PoGlobIsNotMoGlob(k: string)
    requires GlobMatches(k, ".po")
    ensures !GlobMatches(k, ".mo")
  {
    assert k[|k| - 2] == ".po"[1];
  }

  /** `reset` then `move` on the languages directory: afterwards no ".mo"
      file is left, every staged ".po" file is there with its staged
      content, every other entry that is not a ".mo" file keeps its
      content, and nothing else appears. */
  lemma ResetThenMove(languages: map<string, string>, staged: map<string, string>)
    ensures var r := WithStagedPo(WithoutMo(languages), staged);
      && (forall k :: k in r ==> !GlobMatches(k, ".mo"))
      && (forall k :: k in staged && GlobMatches(k, ".po") ==> k in r && r[k] == staged[k])
      && (forall k :: k in languages && !GlobMatches(k, ".mo") && !(k in staged && GlobMatches(k, ".po")) ==>
            k in r && r[k] == languages[k])
      && (forall k :: k in r ==> (k in staged && GlobMatches(k, ".po")) || k in languages)
  {
    var r := WithStagedPo(WithoutMo(languages), staged);
    forall k | k in r
      ensures !GlobMatches(k, ".mo")
    {
      if k in staged && GlobMatches(k, ".po") {
        PoGlobIsNotMoGlob(k);
      }
    }
  }

  /** The languages directory part-way through `convert`, and its
      `converted` accumulator. */
  datatype Conversion = Conversion(files: map<string, string>, converted: bool)

  predicate IsPo(name: string) {
    Extname(name) == ".po"
  }

  /** One iteration of `convert`: a ".po" entry that `msgfmt` compiles
      gets its ".mo" written and is removed; one that does not compile
      (or is no longer there) only clears the accumulator. */
  function ConvertEntry(c: Conversion, name: string, msgfmt: string -> Option<string>): Conversion {
    if !IsPo(name) then c
    else if name in c.files && msgfmt(c.files[name]).Some? then
      Conversion(c.files[MoName(name) := msgfmt(c.files[name]).value] - {name}, c.converted)
    else c.(converted := false)
  }

  /** The whole loop of `convert` over `names`; it never stops early. */
  function ConvertPass(files: map<string, string>, names: seq<string>, msgfmt: string -> Option<string>): Conversion
    decreases |names|
  {
    if names == [] then Conversion(files, true)
    else ConvertEntry(ConvertPass(files, names[..|names| - 1], msgfmt), names[|names| - 1], msgfmt)
  }

  ghost predicate Compiles(files: map<string, string>, name: string, msgfmt: string -> Option<string>) {
    name in files && msgfmt(files[name]).Some?
  }

  /** Every listed ".po" entry compiles (K = 0). */
  ghost predicate AllCompile(files: map<string, string>, names: seq<string>, msgfmt: string -> Option<string>) {
    forall n :: n in names && IsPo(n) ==> Compiles(files, n, msgfmt)
  }

  /** `mo` is the ".mo" that `convert` writes for a listed ".po" entry that
      compiles. */
  ghost predicate IsProduct(files: map<string, string>, names: seq<string>, msgfmt: string -> Option<string>, mo: string) {
    EndsWith(mo, ".mo") && |mo| > 3 && PoName(mo) in names && IsPo(PoName(mo)) && Compiles(files, PoName(mo), msgfmt)
  }

  function Lookup(files: map<string, string>, k: string): Option<string> {
    if k in files then Some(files[k]) else None
  }

  /** What `convert` promises to leave at name `k`: nothing for a compiled
      ".po", the compiled content for its ".mo", and otherwise what was
      there before. */
  ghost function After(files: map<string, string>, names: seq<string>, msgfmt: string -> Option<string>, k: string): Option<string> {
    if k in names && IsPo(k) && Compiles(files, k, msgfmt) then None
    else if IsProduct(files, names, msgfmt, k) then msgfmt(files[PoName(k)])
    else Lookup(files, k)
  }

  lemma PoShape(name: string)
    requires IsPo(name)
    ensures EndsWith(name, ".po") && |name| > 3
    ensures EndsWith(MoName(name), ".mo") && |MoName(name)| > 3 && PoName(MoName(name)) == name
  {
    ExtnameIs(name, ".po");
    DropLeadingDotsSuffix(name);
    var core := DropLeadingDots(name);
    assert core[0] != '.';
    assert name[|name| - 3..] == core[|core| - 3..];
    var base := BasenameWithout(name, ".po");
    assert MoName(name) == base + ".mo";
    assert BasenameWithout(base + ".mo", ".mo") == base;
  }

  lemma MoIsNotPo(name: string)
    requires EndsWith(name, ".mo")
    ensures !IsPo(name)
  {
    ExtnameIs(name, ".po");
    DropLeadingDotsSuffix(name);
    var core := DropLeadingDots(name);
    assert !EndsWith(core, ".po") by {
      if |core| >= 3 {
        assert core[|core| - 2] == name[|name| - 2];
      }
    }
  }

  lemma ProductShape(mo: string)
    requires EndsWith(mo, ".mo") && |mo| > 3
    ensures MoName(PoName(mo)) == mo
  {
    var base := BasenameWithout(mo, ".mo");
    assert base + ".mo" == mo;
    assert PoName(mo) == base + ".po";
    assert BasenameWithout(base + ".po", ".po") == base;
  }

  /** Listing one more entry `last` changes `After` only at `last` and at
      the ".mo" that `last` compiles to. */
  lemma AfterElsewhere(files: map<string, string>, init: seq<string>, last: string,
                       msgfmt: string -> Option<string>, k: string)
    requires last !in init && k != last
    requires EndsWith(k, ".mo") && |k| > 3 ==> PoName(k) != last
    ensures After(files, init + [last], msgfmt, k) == After(files, init, msgfmt, k)
  {
    var names := init + [last];
    assert k in names <==> k in init;
    assert PoName(k) in names <==> PoName(k) in init || PoName(k) == last;
  }

  /** A ".po" entry is not a product of the entries listed before it. */
  lemma PoIsNoProduct(files: map<string, string>, names: seq<string>, msgfmt: string -> Option<string>, name: string)
    requires IsPo(name)
    ensures !IsProduct(files, names, msgfmt, name)
  {
    PoShape(name);
    if EndsWith(name, ".mo") {
      MoIsNotPo(name);
    }
  }

  /** The iteration on a ".po" entry `last`, seen at `last` itself. */
  lemma StepAtEntry(files: map<string, string>, init: seq<string>, last: string,
                    msgfmt: string -> Option<string>, c: Conversion)
    requires last !in init && IsPo(last)
    requires Lookup(c.files, last) == After(files, init, msgfmt, last)
    ensures Lookup(ConvertEntry(c, last, msgfmt).files, last) == After(files, init + [last], msgfmt, last)
  {
    PoIsNoProduct(files, init, msgfmt, last);
    PoIsNoProduct(files, init + [last], msgfmt, last);
    PoShape(last);
    assert MoName(last) != last;
  }

  /** The iteration on a ".po" entry `last`, seen at the ".mo" it compiles to. */
  lemma StepAtProduct(files: map<string, string>, init: seq<string>, last: string,
                      msgfmt: string -> Option<string>, c: Conversion)
    requires last !in init && IsPo(last)
    requires Lookup(c.files, last) == After(files, init, msgfmt, last)
    requires Lookup(c.files, MoName(last)) == After(files, init, msgfmt, MoName(last))
    ensures Lookup(ConvertEntry(c, last, msgfmt).files, MoName(last)) == After(files, init + [last], msgfmt, MoName(last))
  {
    PoIsNoProduct(files, init, msgfmt, last);
    PoShape(last);
    var mo := MoName(last);
    MoIsNotPo(mo);
    assert last in init + [last];
    assert mo !in init + [last] || !IsPo(mo);
    assert IsProduct(files, init + [last], msgfmt, mo) <==> Compiles(files, last, msgfmt);
    assert !IsProduct(files, init, msgfmt, mo);
  }

  /** The iteration on `last`, seen at any other name. */
  lemma StepElsewhere(files: map<string, string>, init: seq<string>, last: string,
                      msgfmt: string -> Option<string>, c: Conversion, k: string)
    requires last !in init && k != last && (IsPo(last) ==> k != MoName(last))
    requires Lookup(c.files, k) == After(files, init, msgfmt, k)
    ensures Lookup(ConvertEntry(c, last, msgfmt).files, k) == After(files, init + [last], msgfmt, k)
  {
    if EndsWith(k, ".mo") && |k| > 3 && PoName(k) == last {
      ProductShape(k);
      assert !IsPo(last);
      assert !IsProduct(files, init + [last], msgfmt, k);
      assert !IsProduct(files, init, msgfmt, k);
      assert k in init + [last] <==> k in init;
    } else {
      AfterElsewhere(files, init, last, msgfmt, k);
    }
  }

  /** One iteration of `convert` keeps the directory equal to `After`. */
  lemma ConvertEntryStep(files: map<string, string>, init: seq<string>, last: string,
                         msgfmt: string -> Option<string>, c: Conversion)
    requires last !in init
    requires forall k :: Lookup(c.files, k) == After(files, init, msgfmt, k)
    ensures var c' := ConvertEntry(c, last, msgfmt);
      forall k :: Lookup(c'.files, k) == After(files, init + [last], msgfmt, k)
  {
    var c' := ConvertEntry(c, last, msgfmt);
    forall k
      ensures Lookup(c'.files, k) == After(files, init + [last], msgfmt, k)
    {
      if IsPo(last) && k == last {
        StepAtEntry(files, init, last, msgfmt, c);
      } else if IsPo(last) && k == MoName(last) {
        assert Lookup(c.files, last) == After(files, init, msgfmt, last);
        StepAtProduct(files, init, last, msgfmt, c);
      } else if k == last {
        assert c' == c;
        AfterNotPo(files, init, last, msgfmt);
      } else {
        StepElsewhere(files, init, last, msgfmt, c, k);
      }
    }
  }

  /** Listing a name that is not a ".po" leaves `After` as it was at that name. */
  lemma AfterNotPo(files: map<string, string>, init: seq<string>, last: string, msgfmt: string -> Option<string>)
    requires last !in init && !IsPo(last)
    ensures After(files, init + [last], msgfmt, last) == After(files, init, msgfmt, last)
  {
    if EndsWith(last, ".mo") && |last| > 3 {
      var po := PoName(last);
      assert po == BasenameWithout(last, ".mo") + ".po";
      assert po[|po| - 2] == 'p' && last[|last| - 2] == 'm';
      assert po in init + [last] <==> po in init;
    }
  }

  /** `convert` attempts every listed ".po" entry, whatever happened to the
      ones before: the directory afterwards is `After` at every name, and
      `converted` stays true exactly when no entry failed. */
  lemma {:induction false} ConvertMatchesAfter(files: map<string, string>, names: seq<string>,
                                               msgfmt: string -> Option<string>)
    requires Distinct(names)
    ensures var c := ConvertPass(files, names, msgfmt);
      (c.converted <==> AllCompile(files, names, msgfmt))
      && forall k :: Lookup(c.files, k) == After(files, names, msgfmt, k)
  {
    if names != [] {
      var init := names[..|names| - 1];
      var last := names[|names| - 1];
      assert names == init + [last];
      assert forall n :: n in names <==> n in init || n == last;
      assert last !in init;
      ConvertMatchesAfter(files, init, msgfmt);
      var c := ConvertPass(files, init, msgfmt);
      ConvertEntryStep(files, init, last, msgfmt, c);
      if IsPo(last) {
        PoShape(last);
        assert Lookup(c.files, last) == Lookup(files, last);
      }
    }
  }

  /** The listed ".po" entries (N of them). */
  ghost function PoEntries(names: seq<string>): set<string> {
    set n | n in names && IsPo(n)
  }

  /** The listed ".po" entries that compile (N - K of them). */
  ghost function Compiled(files: map<string, string>, names: seq<string>, msgfmt: string -> Option<string>): set<string> {
    set n | n in names && IsPo(n) && Compiles(files, n, msgfmt)
  }

  /** The listed ".po" entries that fail to compile (K of them). */
  ghost function Failed(files: map<string, string>, names: seq<string>, msgfmt: string -> Option<string>): set<string> {
    set n | n in names && IsPo(n) && !Compiles(files, n, msgfmt)
  }

  /** `converted` is true exactly when no listed ".po" entry failed. */
  lemma ConvertedIffNoneFailed(files: map<string, string>, names: seq<string>, msgfmt: string -> Option<string>)
    requires Distinct(names)
    ensures ConvertPass(files, names, msgfmt).converted <==> Failed(files, names, msgfmt) == {}
  {
    ConvertMatchesAfter(files, names, msgfmt);
    if !AllCompile(files, names, msgfmt) {
      var n :| n in names && IsPo(n) && !Compiles(files, n, msgfmt);
      assert n in Failed(files, names, msgfmt);
    }
  }

  /** The compiled and the failing entries split the N listed ".po" entries. */
  lemma PoEntriesSplit(files: map<string, string>, names: seq<string>, msgfmt: string -> Option<string>)
    ensures |Compiled(files, names, msgfmt)| + |Failed(files, names, msgfmt)| == |PoEntries(names)|
  {
    var a := Compiled(files, names, msgfmt);
    var b := Failed(files, names, msgfmt);
    assert a !! b;
    assert PoEntries(names) == a + b;
  }

  /** Each listed ".po" entry that compiles is deleted, and its ".mo"
      holds what `msgfmt` produced. */
  lemma ConvertReplacesCompiled(files: map<string, string>, names: seq<string>, msgfmt: string -> Option<string>, n: string)
    requires Distinct(names) && n in names && IsPo(n) && Compiles(files, n, msgfmt)
    ensures var c := ConvertPass(files, names, msgfmt);
      n !in c.files && MoName(n) in c.files && Some(c.files[MoName(n)]) == msgfmt(files[n])
  {
    ConvertMatchesAfter(files, names, msgfmt);
    var c := ConvertPass(files, names, msgfmt);
    PoShape(n);
    MoIsNotPo(MoName(n));
    assert Lookup(c.files, n) == After(files, names, msgfmt, n);
    assert Lookup(c.files, MoName(n)) == After(files, names, msgfmt, MoName(n));
  }

  /** Each listed ".po" entry that fails to compile stays as it was. */
  lemma ConvertKeepsFailed(files: map<string, string>, names: seq<string>, msgfmt: string -> Option<string>, n: string)
    requires Distinct(names) && n in names && IsPo(n) && !Compiles(files, n, msgfmt)
    ensures Lookup(ConvertPass(files, names, msgfmt).files, n) == Lookup(files, n)
  {
    ConvertMatchesAfter(files, names, msgfmt);
    PoIsNoProduct(files, names, msgfmt, n);
    assert Lookup(ConvertPass(files, names, msgfmt).files, n) == After(files, names, msgfmt, n);
  }

  /** A name that is neither a compiled ".po" entry nor the ".mo" of one is
      untouched. */
  lemma ConvertLeavesOthers(files: map<string, string>, names: seq<string>, msgfmt: string -> Option<string>, k: string)
    requires Distinct(names)
    requires !(k in names && IsPo(k) && Compiles(files, k, msgfmt)) && !IsProduct(files, names, msgfmt, k)
    ensures Lookup(ConvertPass(files, names, msgfmt).files, k) == Lookup(files, k)
  {
    ConvertMatchesAfter(files, names, msgfmt);
    assert Lookup(ConvertPass(files, names, msgfmt).files, k) == After(files, names, msgfmt, k);
  }

  /** For N listed ".po" entries of which K fail: `convert` returns true
      exactly when K = 0; each of the N - K that compile is deleted and its
      ".mo" holds the compiled content; each of the K failing ones stays as
      it was; every name that is neither a compiled entry nor its ".mo" is
      untouched. */
  lemma ConvertOutcome(files: map<string, string>, names: seq<string>, msgfmt: string -> Option<string>)
    requires Distinct(names)
    ensures var c := ConvertPass(files, names, msgfmt);
      c.converted <==> Failed(files, names, msgfmt) == {}
    ensures |Compiled(files, names, msgfmt)| + |Failed(files, names, msgfmt)| == |PoEntries(names)|
    ensures var c := ConvertPass(files, names, msgfmt);
      forall n :: n in Compiled(files, names, msgfmt) ==>
        n !in c.files && MoName(n) in c.files && Some(c.files[MoName(n)]) == msgfmt(files[n])
    ensures var c := ConvertPass(files, names, msgfmt);
      forall n :: n in Failed(files, names, msgfmt) ==> Lookup(c.files, n) == Lookup(files, n)
    ensures var c := ConvertPass(files, names, msgfmt);
      forall k :: k !in Compiled(files, names, msgfmt) && !IsProduct(files, names, msgfmt, k) ==>
        Lookup(c.files, k) == Lookup(files, k)
  {
    ConvertedIffNoneFailed(files, names, msgfmt);
    PoEntriesSplit(files, names, msgfmt);
    forall n | n in Compiled(files, names, msgfmt)
      ensures var c := ConvertPass(files, names, msgfmt);
        n !in c.files && MoName(n) in c.files && Some(c.files[MoName(n)]) == msgfmt(files[n])
    {
      ConvertReplacesCompiled(files, names, msgfmt, n);
    }
    forall n | n in Failed(files, names, msgfmt)
      ensures Lookup(ConvertPass(files, names, msgfmt).files, n) == Lookup(files, n)
    {
      ConvertKeepsFailed(files, names, msgfmt, n);
    }
    forall k | k !in Compiled(files, names, msgfmt) && !IsProduct(files, names, msgfmt, k)
      ensures Lookup(ConvertPass(files, names, msgfmt).files, k) == Lookup(files, k)
    {
      ConvertLeavesOthers(files, names, msgfmt, k);
    }
  }

  /** The oracle results of the four translation steps, and the snapshot of
      the languages directory that `convert` lists (None when `Dir.open`
      raises). */
  datatype Tools = Tools(reset: Value, pull: Value, pulled: map<string, string>, move: Value,
                         listing: Option<seq<string>>, msgfmt: string -> Option<string>)

  /** The effect and the value of `translate`, `reset and pull and move and
      convert`: each step runs only when the previous ones were truthy. */
  function TranslateRun(languages: map<string, string>, staging: map<string, string>, t: Tools):
    (Outcome<Value>, map<string, string>, map<string, string>)
  {
    if !t.reset.Truthy() then (Returned(t.reset), languages, staging)
    else
      var cleared := WithoutMo(languages);
      if !t.pull.Truthy() then (Returned(t.pull), cleared, staging)
      else if !t.move.Truthy() then (Returned(t.move), cleared, t.pulled)
      else
        var moved := WithStagedPo(cleared, t.pulled);
        match t.listing
        case None => (Raised(NoSuchDirectory), moved, t.pulled)
        case Some(names) =>
          var c := ConvertPass(moved, names, t.msgfmt);
          (Returned(FromBool(c.converted)), c.files, t.pulled)
  }

  /** The value of `translate` is the short-circuit conjunction of the four
      steps' values: truthy exactly when all four are. */
  lemma TranslateIsAndChain(languages: map<string, string>, staging: map<string, string>, t: Tools)
    requires t.listing.Some?
    ensures var convert := ConvertPass(WithStagedPo(WithoutMo(languages), t.pulled), t.listing.value, t.msgfmt).converted;
      TranslateRun(languages, staging, t).0 == Returned(AndChain([t.reset, t.pull, t.move, FromBool(convert)]))
  {
    var c := ConvertPass(WithStagedPo(WithoutMo(languages), t.pulled), t.listing.value, t.msgfmt);
    var vs := [t.reset, t.pull, t.move, FromBool(c.converted)];
    if t.reset.Truthy() {
      assert AndChain(vs) == AndChain([t.pull, t.move, FromBool(c.converted)]) by { assert vs[1..] == [t.pull, t.move, FromBool(c.converted)]; }
      if t.pull.Truthy() {
        assert AndChain([t.pull, t.move, FromBool(c.converted)]) == AndChain([t.move, FromBool(c.converted)]) by {
          assert [t.pull, t.move, FromBool(c.converted)][1..] == [t.move, FromBool(c.converted)];
        }
        if t.move.Truthy() {
          assert AndChain([t.move, FromBool(c.converted)]) == AndChain([FromBool(c.converted)]) by {
            assert [t.move, FromBool(c.converted)][1..] == [FromBool(c.converted)];
          }
        }
      }
    }
  }

  /** A step that is false or nil stops the chain: nothing after it runs. */
  lemma TranslateStopsAtFirstFailure(languages: map<string, string>, staging: map<string, string>, t: Tools)
    ensures !t.reset.Truthy() ==> TranslateRun(languages, staging, t) == (Returned(t.reset), languages, staging)
    ensures t.reset.Truthy() && !t.pull.Truthy() ==>
      TranslateRun(languages, staging, t) == (Returned(t.pull), WithoutMo(languages), staging)
    ensures t.reset.Truthy() && t.pull.Truthy() && !t.move.Truthy() ==>
      TranslateRun(languages, staging, t) == (Returned(t.move), WithoutMo(languages), t.pulled)
  {
  }

  class Transifex {
    const languages: Folder
    const staging: Folder

    /** `Transifex.new(languages_dir)`; the staging directory is the global
        `TRANSIFEX_DIR`. */
    constructor (languages: Folder, staging: Folder)
      ensures this.languages == languages && this.staging == staging
    {
      this.languages := languages;
      this.staging := staging;
    }

    /** `reset`: `rm -rf` of the glob `*.mo` in the directory. */
    method Reset(status: Value) returns (r: Value)
      modifies languages
      ensures r == status
      ensures languages.files == if status.Truthy() then WithoutMo(old(languages.files)) else old(languages.files)
    {
      if status.Truthy() {
        languages.files := WithoutMo(languages.files);
      }
      r := status;
    }

    /** `pull`: `tx pull -a` in the staging directory, which then holds
        `pulled`. */
    method Pull(status: Value, pulled: map<string, string>) returns (r: Value)
      modifies staging
      ensures r == status
      ensures staging.files == if status.Truthy() then pulled else old(staging.files)
    {
      if status.Truthy() {
        staging.files := pulled;
      }
      r := status;
    }

    /** `move`: `cp` of the glob `*.po` of the staging directory into the directory. */
    method Move(status: Value) returns (r: Value)
      modifies languages
      ensures r == status
      ensures languages.files ==
        if status.Truthy() then WithStagedPo(old(languages.files), staging.files) else old(languages.files)
    {
      if status.Truthy() {
        languages.files := WithStagedPo(languages.files, staging.files);
      }
      r := status;
    }

    /** One iteration of `convert`, on the listed entry `name`, with the
        accumulator `converted`. */
    method ConvertOne(name: string, msgfmt: string -> Option<string>, converted: bool) returns (c: bool)
      modifies languages
      ensures Conversion(languages.files, c) == ConvertEntry(Conversion(old(languages.files), converted), name, msgfmt)
    {
      c := converted;
      if IsPo(name) {
        var compiled := if name in languages.files then msgfmt(languages.files[name]) else None;
        if compiled.Some? {
          languages.files := languages.files[MoName(name) := compiled.value];  // msgfmt X.po -o X.mo
          languages.files := languages.files - {name};                         // rm X.po
        } else {
          c := false;
        }
      }
    }

    /** `convert`: the loop over the listing of the languages directory. */
    method Convert(listing: Option<seq<string>>, msgfmt: string -> Option<string>) returns (r: Outcome<bool>)
      modifies languages
      ensures listing.None? ==> r == Raised(NoSuchDirectory) && languages.files == old(languages.files)
      ensures listing.Some? ==>
        Conversion(languages.files, r.Returned? && r.value) == ConvertPass(old(languages.files), listing.value, msgfmt)
        && r.Returned?
    {
      if listing.None? {
        return Raised(NoSuchDirectory);
      }
      var names := listing.value;
      var converted := true;
      var i := 0;
      while i < |names|
        invariant 0 <= i <= |names|
        invariant ConvertPass(old(languages.files), names[..i], msgfmt) == Conversion(languages.files, converted)
      {
        assert names[..i + 1][..i] == names[..i];
        converted := ConvertOne(names[i], msgfmt, converted);
        i := i + 1;
      }
      assert names[..i] == names;
      r := Returned(converted);
    }

    /** `translate`: `reset and pull and move and convert`. */
    method Translate(t: Tools) returns (r: Outcome<Value>)
      requires languages != staging
      modifies languages, staging
      ensures (r, languages.files, staging.files) == TranslateRun(old(languages.files), old(staging.files), t)
    {
      r := Returned(t.reset);
      var ok := Reset(t.reset);
      if !ok.Truthy() { return; }
      ok := Pull(t.pull, t.pulled);
      if !ok.Truthy() { return Returned(ok); }
      ok := Move(t.move);
      if !ok.Truthy() { return Returned(ok); }
      var converted := Convert(t.listing, t.msgfmt);
      match converted
      case Raised(e) => r := Raised(e);
      case Returned(b) => r := Returned(FromBool(b));
    }
  }
}
