/** A directory on disk: the entries directly inside it that are regular
    files, by name, with their contents. */
module Files {
  class Folder {
    var files: map<string, string>
  }
}

/** `Minifier#minify_js` and `Minifier#minify_css`: every entry of a directory
    listing whose extension is exactly ".js" (".css") is replaced by its
    minified content. The new content goes to "temp-<name>" first; then the
    original is deleted and the temporary file renamed over it. The two
    Ruby methods differ only in the extension and in the library called
    (Uglifier, or Sass with the scss syntax and compressed style), so they
    share one loop here. The listing is a snapshot taken when the directory
    is opened. */
module Minifier {
  import opened Platform
  import opened Files

  function TempName(name: string): string {
    "temp-" + name
  }

  /** A directory's content part-way through a pass, and the exception that
      stopped the pass, if one did. */
  datatype Pass = Pass(files: map<string, string>, raised: Option<Error>)

  /** One iteration of the loop on entry `name`. `File.open(temp, "w")`
      creates the empty temporary file before the original is read or
      compiled, so a failure in either leaves it behind. */
  function RewriteEntry(files: map<string, string>, name: string, ext: string,
                        compile: string -> Option<string>): Pass
  {
    if Extname(name) != ext then Pass(files, None)
    else
      var created := files[TempName(name) := ""];
      if name !in created then Pass(created, Some(NoSuchEntry(name)))
      else match compile(created[name])
        case None => Pass(created, Some(CompileError(name)))
        case Some(out) => Pass((files - {TempName(name)})[name := out], None)
  }

  /** The loop over `names`, stopping at the first exception. */
  function Rewrite(files: map<string, string>, names: seq<string>, ext: string,
                   compile: string -> Option<string>): Pass
    decreases |names|
  {
    if names == [] then Pass(files, None)
    else
      var p := Rewrite(files, names[..|names| - 1], ext, compile);
      if p.raised.Some? then p else RewriteEntry(p.files, names[|names| - 1], ext, compile)
  }

  /** `Dir.open` raises when the directory does not exist (listing None). */
  function RewriteListing(files: map<string, string>, listing: Option<seq<string>>, ext: string,
                          compile: string -> Option<string>): Pass
  {
    match listing
    case None => Pass(files, Some(NoSuchDirectory))
    case Some(names) => Rewrite(files, names, ext, compile)
  }

  /** No listed entry with extension `ext` has a "temp-" file beside it. */
  ghost predicate NoTempClash(files: map<string, string>, names: seq<string>, ext: string) {
    forall n :: n in names && Extname(n) == ext ==> TempName(n) !in files
  }

  /** Every listed entry with extension `ext` is a file that compiles. */
  ghost predicate AllCompile(files: map<string, string>, names: seq<string>, ext: string,
                             compile: string -> Option<string>) {
    forall n :: n in names && Extname(n) == ext ==> n in files && compile(files[n]).Some?
  }

  /** The directory the source promises: each listed entry with extension
      `ext` holds its compiled content, every other entry is as it was. */
  ghost function Minified(files: map<string, string>, names: seq<string>, ext: string,
                          compile: string -> Option<string>): map<string, string>
  {
    map k | k in files :: if k in names && Extname(k) == ext && compile(files[k]).Some?
                           then compile(files[k]).value else files[k]
  }

  /** Once an iteration has raised, the rest of the listing is never reached. */
  lemma {:induction false} RewriteStopsAtRaise(files: map<string, string>, names: seq<string>, k: nat,
                                               ext: string, compile: string -> Option<string>)
    requires k <= |names| && Rewrite(files, names[..k], ext, compile).raised.Some?
    ensures Rewrite(files, names, ext, compile) == Rewrite(files, names[..k], ext, compile)
    decreases |names|
  {
    if k < |names| {
      var init := names[..|names| - 1];
      assert init[..k] == names[..k];
      RewriteStopsAtRaise(files, init, k, ext, compile);
    } else {
      assert names[..k] == names;
    }
  }

  /** One successful iteration: the entry holds its compiled content, no
      temporary file is left (even one that was there before), and every
      other entry is as it was. Without such an earlier `temp-` file, only
      the entry changes. */
  lemma RewriteEntryReplaces(files: map<string, string>, name: string, ext: string,
                             compile: string -> Option<string>)
    requires Extname(name) == ext && name in files
    requires compile(files[name]).Some?
    ensures var p := RewriteEntry(files, name, ext, compile);
      && p.raised == None && name in p.files && p.files[name] == compile(files[name]).value
      && TempName(name) !in p.files
      && (forall k :: k in files && k != name && k != TempName(name) ==> k in p.files && p.files[k] == files[k])
      && (forall k :: k in p.files ==> k in files)
    ensures TempName(name) !in files ==>
      RewriteEntry(files, name, ext, compile) == Pass(files[name := compile(files[name]).value], None)
  {
    var out := compile(files[name]).value;
    assert TempName(name) != name;
    if TempName(name) !in files {
      assert (files - {TempName(name)})[name := out] == files[name := out];
    }
  }

  /** Minified over one more listed entry. */
  lemma MinifiedStep(files: map<string, string>, init: seq<string>, last: string,
                     ext: string, compile: string -> Option<string>)
    requires last !in init
    ensures var m := Minified(files, init, ext, compile);
      Minified(files, init + [last], ext, compile) ==
        if last in files && Extname(last) == ext && compile(files[last]).Some?
        then m[last := compile(files[last]).value] else m
  {
    assert forall n :: n in init + [last] <==> n in init || n == last;
  }

  /** AllCompile over one more listed entry. */
  lemma AllCompileStep(files: map<string, string>, init: seq<string>, last: string,
                       ext: string, compile: string -> Option<string>)
    ensures AllCompile(files, init + [last], ext, compile) <==>
      AllCompile(files, init, ext, compile) && (Extname(last) == ext ==> last in files && compile(files[last]).Some?)
  {
    assert forall n :: n in init + [last] <==> n in init || n == last;
  }

  /** What `RewriteMinifies` states about a pass over `names`. */
  ghost predicate MinifiesOver(files: map<string, string>, names: seq<string>, ext: string,
                               compile: string -> Option<string>)
  {
    var p := Rewrite(files, names, ext, compile);
    && (p.raised.None? <==> AllCompile(files, names, ext, compile))
    && (p.raised.None? ==> p.files == Minified(files, names, ext, compile))
  }

  /** The pass over `init` extended by one more listed entry `last`. */
  lemma MinifiesStep(files: map<string, string>, init: seq<string>, last: string,
                     ext: string, compile: string -> Option<string>)
    requires last !in init && MinifiesOver(files, init, ext, compile)
    requires Extname(last) == ext ==> TempName(last) !in files
    ensures MinifiesOver(files, init + [last], ext, compile)
  {
    var names := init + [last];
    assert names[..|names| - 1] == init;
    var p := Rewrite(files, init, ext, compile);
    MinifiedStep(files, init, last, ext, compile);
    AllCompileStep(files, init, last, ext, compile);
    if p.raised.None? && Extname(last) == ext && last in files && compile(files[last]).Some? {
      assert p.files[last] == files[last];
      RewriteEntryReplaces(p.files, last, ext, compile);
    }
  }

  /** The pass runs to completion exactly when every listed entry with the
      extension compiles, and then the directory is `Minified`. */
  lemma {:induction false} RewriteMinifies(files: map<string, string>, names: seq<string>,
                                           ext: string, compile: string -> Option<string>)
    requires Distinct(names) && NoTempClash(files, names, ext)
    ensures var p := Rewrite(files, names, ext, compile);
      (p.raised.None? <==> AllCompile(files, names, ext, compile))
      && (p.raised.None? ==> p.files == Minified(files, names, ext, compile))
  {
    if names == [] {
      assert Minified(files, names, ext, compile) == files;
    } else {
      var init := names[..|names| - 1];
      var last := names[|names| - 1];
      assert names == init + [last];
      assert forall n :: n in init ==> n in names;
      RewriteMinifies(files, init, ext, compile);
      assert last !in init;
      MinifiesStep(files, init, last, ext, compile);
    }
  }

  /** `minify_js`/`minify_css` leave the set of names as it was, give each
      listed entry with the extension its compiled content and leave every
      other entry untouched; they complete exactly when every such entry
      compiles. */
  lemma RewriteKeepsNames(files: map<string, string>, names: seq<string>,
                          ext: string, compile: string -> Option<string>)
    requires Distinct(names) && NoTempClash(files, names, ext)
    ensures var p := Rewrite(files, names, ext, compile);
      p.raised.None? <==> forall n :: n in names && Extname(n) == ext ==> n in files && compile(files[n]).Some?
    ensures var p := Rewrite(files, names, ext, compile);
      p.raised.None? ==> p.files.Keys == files.Keys
    ensures var p := Rewrite(files, names, ext, compile);
      p.raised.None? ==> forall n :: n in names && Extname(n) == ext ==> p.files[n] == compile(files[n]).value
    ensures var p := Rewrite(files, names, ext, compile);
      p.raised.None? ==> forall k :: k in files && !(k in names && Extname(k) == ext) ==> p.files[k] == files[k]
  {
    RewriteMinifies(files, names, ext, compile);
  }

  /** "a.js" and "temp-a.js" both have the extension ".js". */
  lemma JsNames()
    ensures Extname("a.js") == ".js" && Extname("temp-a.js") == ".js"
  {
    ExtnameIs("a.js", ".js");
    ExtnameIs("temp-a.js", ".js");
    assert DropLeadingDots("a.js") == "a.js";
    assert DropLeadingDots("temp-a.js") == "temp-a.js";
    assert "a.js"[1..] == ".js";
    assert "temp-a.js"[6..] == ".js";
  }

  /** A listed "temp-" file after the entry it clashes with: the first
      iteration renames it away, so the second raises on reading it and
      leaves its own temporary file behind. */
  lemma ClashAfterRaises(x: string, y: string, compile: string -> Option<string>)
    requires compile(x).Some?
    ensures Rewrite(map["a.js" := x, "temp-a.js" := y], ["a.js", "temp-a.js"], ".js", compile)
         == Pass(map["a.js" := compile(x).value, "temp-temp-a.js" := ""], Some(NoSuchEntry("temp-a.js")))
  {
    var files := map["a.js" := x, "temp-a.js" := y];
    JsNames();
    var names := ["a.js", "temp-a.js"];
    assert names[..1] == ["a.js"];
    assert names[..1][..0] == [];
    var once := map["a.js" := compile(x).value];
    assert TempName("a.js") == "temp-a.js";
    assert files["temp-a.js" := ""]["a.js"] == x;
    assert (files - {"temp-a.js"})["a.js" := compile(x).value] == once;
    assert Rewrite(files, names[..1], ".js", compile) == Pass(once, None);
    assert TempName("temp-a.js") == "temp-temp-a.js";
    assert "temp-a.js" !in once["temp-temp-a.js" := ""];
  }

  /** A listed "temp-" file before the entry it clashes with: the pass
      completes, but the second iteration truncates that file, writes the
      minified entry into it and renames it over the entry, so the listed
      "temp-" file is lost. */
  lemma ClashBeforeLoses(x: string, y: string, compile: string -> Option<string>)
    requires compile(x).Some? && compile(y).Some?
    ensures var p := Rewrite(map["a.js" := x, "temp-a.js" := y], ["temp-a.js", "a.js"], ".js", compile);
      p == Pass(map["a.js" := compile(x).value], None) && "temp-a.js" !in p.files
  {
    var files := map["a.js" := x, "temp-a.js" := y];
    JsNames();
    var names := ["temp-a.js", "a.js"];
    assert names[..1] == ["temp-a.js"];
    assert names[..1][..0] == [];
    var once := map["a.js" := x, "temp-a.js" := compile(y).value];
    assert TempName("temp-a.js") == "temp-temp-a.js";
    assert files["temp-temp-a.js" := ""]["temp-a.js"] == y;
    assert (files - {"temp-temp-a.js"})["temp-a.js" := compile(y).value] == once;
    assert RewriteEntry(files, "temp-a.js", ".js", compile) == Pass(once, None);
    assert Rewrite(files, names[..1], ".js", compile) == Pass(once, None);
    assert TempName("a.js") == "temp-a.js";
    assert once["temp-a.js" := ""]["a.js"] == x;
    assert (once - {"temp-a.js"})["a.js" := compile(x).value] == map["a.js" := compile(x).value];
  }

  /** One iteration of the loop of `minify_js` / `minify_css`, on the
      listed entry `name` of the directory `dir`. */
  method RewriteOne(dir: Folder, name: string, ext: string, compile: string -> Option<string>)
    returns (raised: Option<Error>)
    modifies dir
    ensures Pass(dir.files, raised) == RewriteEntry(old(dir.files), name, ext, compile)
  {
    if Extname(name) != ext {
      return None;
    }
    var temp := TempName(name);
    dir.files := dir.files[temp := ""];            // File.open(temp_file, "w")
    if name !in dir.files {
      return Some(NoSuchEntry(name));               // File.read raises
    }
    var out := compile(dir.files[name]);
    if out.None? {
      return Some(CompileError(name));              // the library raises
    }
    dir.files := dir.files[temp := out.value];     // minified_file.write
    dir.files := dir.files - {name};                // File.delete(source_file)
    dir.files := (dir.files - {temp})[name := dir.files[temp]];  // File.rename
    assert dir.files == (old(dir.files) - {temp})[name := out.value];
    raised := None;
  }

  /** The loop of `minify_js` / `minify_css` over the directory `dir`. */
  method RewriteAssets(dir: Folder, listing: Option<seq<string>>, ext: string,
                       compile: string -> Option<string>) returns (raised: Option<Error>)
    modifies dir
    ensures Pass(dir.files, raised) == RewriteListing(old(dir.files), listing, ext, compile)
  {
    if listing.None? {
      return Some(NoSuchDirectory);
    }
    var names := listing.value;
    var i := 0;
    while i < |names|
      invariant 0 <= i <= |names|
      invariant Rewrite(old(dir.files), names[..i], ext, compile) == Pass(dir.files, None)
    {
      assert names[..i + 1][..i] == names[..i];
      raised := RewriteOne(dir, names[i], ext, compile);
      if raised.Some? {
        RewriteStopsAtRaise(old(dir.files), names, i + 1, ext, compile);
        return;
      }
      i := i + 1;
    }
    assert names[..i] == names;
    raised := None;
  }

  /** `minify_js(folder)`: Uglifier over the ".js" entries. */
  method MinifyJs(dir: Folder, listing: Option<seq<string>>, uglify: string -> Option<string>)
    returns (raised: Option<Error>)
    modifies dir
    ensures Pass(dir.files, raised) == RewriteListing(old(dir.files), listing, ".js", uglify)
  {
    raised := RewriteAssets(dir, listing, ".js", uglify);
  }

  /** `minify_css(folder)`: Sass (scss syntax, compressed style, no cache)
      over the ".css" entries. */
  method MinifyCss(dir: Folder, listing: Option<seq<string>>, scss: string -> Option<string>)
    returns (raised: Option<Error>)
    modifies dir
    ensures Pass(dir.files, raised) == RewriteListing(old(dir.files), listing, ".css", scss)
  {
    raised := RewriteAssets(dir, listing, ".css", scss);
  }
}
