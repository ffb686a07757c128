/** `Repo`: a temporary working copy of the plugin's git repository under
    `<pwd>/tmp/<random id>`, the branch recorded in `@current_branch`
    (master unless the checkout command succeeded), and `zip`, which
    reads the version, minifies the scripts and style sheets, synchronises
    the translations and archives the copy into the packages directory. */
module Repository {
  import opened Platform
  import opened Files
  import VersionMarker
  import Minifier
  import Translation

  /** The two branches a package can be built from (`Enum[:dev, :master]`). */
  datatype Branch = Dev | Master

  /** The text of the branch symbol, as interpolated into commands and names. */
  function BranchName(b: Branch): (r: string)
    ensures r == "dev" || r == "master"
    ensures forall c :: c in r ==> 'a' <= c <= 'z'
  {
    match b
    case Dev => "dev"
    case Master => "master"
  }

  predicate IsHexDigit(c: char) {
    '0' <= c <= '9' || 'a' <= c <= 'f'
  }

  /** What `SecureRandom.hex(5)` yields: ten lower-case hexadecimal digits. */
  predicate IsRandomId(id: string) {
    |id| == 10 && forall k :: 0 <= k < |id| ==> IsHexDigit(id[k])
  }

  /** `"#{@current_branch}_#{version}_#{@random_id}.zip"`. */
  function ZipName(branch: Branch, version: string, randomId: string): string {
    BranchName(branch) + "_" + version + "_" + randomId + ".zip"
  }

  /** Reads branch, version and random id back out of an archive name. The
      version may itself contain underscores: the branch is the known prefix
      and the id has a fixed length. */
  function ParseZipName(name: string): Option<(Branch, string, string)> {
    if |name| < 15 || name[|name| - 4..] != ".zip" || name[|name| - 15] != '_' then None
    else
      var id := name[|name| - 14..|name| - 4];
      var head := name[..|name| - 15];
      if !IsRandomId(id) then None
      else if |head| >= 4 && head[..4] == "dev_" then Some((Dev, head[4..], id))
      else if |head| >= 7 && head[..7] == "master_" then Some((Master, head[7..], id))
      else None
  }

  /** Whatever `ParseZipName` accepts is the archive name of what it read. */
  lemma ParseZipNameSound(name: string)
    ensures var r := ParseZipName(name);
      r.Some? ==> IsRandomId(r.value.2) && name == ZipName(r.value.0, r.value.1, r.value.2)
  {
    var r := ParseZipName(name);
    if r.Some? {
      var id := name[|name| - 14..|name| - 4];
      var head := name[..|name| - 15];
      assert name == head + "_" + id + ".zip";
      var (b, v, _) := r.value;
      var p := |BranchName(b)| + 1;
      assert head == head[..p] + v;
      assert head[..p] == BranchName(b) + "_";
    }
  }

  /** The archive name determines the branch, the version and the random id
      it was made from. */
  lemma ParseZipNameInverts(branch: Branch, version: string, randomId: string)
    requires IsRandomId(randomId)
    ensures ParseZipName(ZipName(branch, version, randomId)) == Some((branch, version, randomId))
  {
    var name := ZipName(branch, version, randomId);
    var head := BranchName(branch) + "_" + version;
    assert name == head + "_" + randomId + ".zip";
    assert name[|name| - 4..] == ".zip";
    assert name[|name| - 14..|name| - 4] == randomId;
    assert name[..|name| - 15] == head;
    match branch
    case Dev =>
      assert head[..4] == "dev_" && head[4..] == version;
    case Master =>
      assert head[0] == 'm';
      assert head[..7] == "master_" && head[7..] == version;
  }

  /** Two builds get the same archive name only when branch, version and
      random id all agree. */
  lemma ZipNameInjective(b1: Branch, v1: string, id1: string, b2: Branch, v2: string, id2: string)
    requires IsRandomId(id1) && IsRandomId(id2)
    ensures ZipName(b1, v1, id1) == ZipName(b2, v2, id2) <==> b1 == b2 && v1 == v2 && id1 == id2
  {
    ParseZipNameInverts(b1, v1, id1);
    ParseZipNameInverts(b2, v2, id2);
  }

  /** `@local_url`: the working copy's directory. */
  function LocalUrl(pwd: string, randomId: string): string {
    pwd + "/tmp/" + randomId
  }

  /** `PACKAGES_PATH`, where archives are written. */
  function PackagesPath(pwd: string): string {
    pwd + "/public/packages"
  }

  /** The contents of the directories `zip` touches: the working copy's
      `js`, `css` and `languages`, the shared Transifex staging directory
      and the packages directory. */
  datatype Tree = Tree(js: map<string, string>, css: map<string, string>, languages: map<string, string>,
                       staging: map<string, string>, packages: map<string, string>)

  /** Those directories on disk. */
  datatype Dirs = Dirs(js: Folder, css: Folder, languages: Folder, staging: Folder, packages: Folder) {
    /** The five are different directories. */
    predicate Separate() {
      && js != css && js != languages && js != staging && js != packages
      && css != languages && css != staging && css != packages
      && languages != staging && languages != packages
      && staging != packages
    }

    function State(): Tree
      reads js, css, languages, staging, packages
    {
      Tree(js.files, css.files, languages.files, staging.files, packages.files)
    }
  }

  /** What the outside world answers during `zip`: the content of
      `index.php` (None when missing), the listings and compilers of the two
      minification passes, the answers of the translation steps, the
      `system` result of `zip -r` and the archive it writes. */
  datatype Tools = Tools(index: Option<string>,
                         jsListing: Option<seq<string>>, uglify: string -> Option<string>,
                         cssListing: Option<seq<string>>, scss: string -> Option<string>,
                         translation: Translation.Tools,
                         zip: Value, archive: string)

  /** The two minification passes, the style sheets only when the scripts
      pass completed. */
  function MinifyRun(s: Tree, t: Tools): (Option<Error>, Tree) {
    var js := Minifier.RewriteListing(s.js, t.jsListing, ".js", t.uglify);
    if js.raised.Some? then (js.raised, s.(js := js.files))
    else
      var css := Minifier.RewriteListing(s.css, t.cssListing, ".css", t.scss);
      (css.raised, s.(js := js.files, css := css.files))
  }

  /** `translate` and then `zip -r`, after the minification. */
  function ArchiveRun(name: string, s: Tree, t: Tools): (Outcome<Option<string>>, Tree) {
    var tr := Translation.TranslateRun(s.languages, s.staging, t.translation);
    var after := s.(languages := tr.1, staging := tr.2);
    if tr.0.Raised? then (Raised(tr.0.error), after)
    else if t.zip.Truthy() then (Returned(Some(name)), after.(packages := s.packages[name := t.archive]))
    else (Returned(None), after)
  }

  /** `Repo#zip` on the working copy of `branch`: the version is read again,
      the scripts and the style sheets are minified, the translations are
      synchronised (their result is not looked at) and the copy is archived.
      The archive name is returned when `zip -r` succeeds, nil otherwise; an
      exception in any step ends `zip` with it. */
  function ZipRun(branch: Branch, randomId: string, s: Tree, t: Tools): (Outcome<Option<string>>, Tree) {
    match VersionMarker.ReadVersion(t.index)
    case Raised(e) => (Raised(e), s)
    case Returned(version) =>
      var m := MinifyRun(s, t);
      if m.0.Some? then (Raised(m.0.value), m.1)
      else ArchiveRun(ZipName(branch, version, randomId), m.1, t)
  }

  /** Everything before the archive step completed without an exception. */
  ghost predicate ReachesArchive(s: Tree, t: Tools) {
    && VersionMarker.ReadVersion(t.index).Returned?
    && MinifyRun(s, t).0.None?
    && Translation.TranslateRun(MinifyRun(s, t).1.languages, s.staging, t.translation).0.Returned?
  }

  /** `zip` raises exactly when a step before the archive raises; otherwise
      it returns the archive name `<branch>_<version>_<id>.zip` when `zip -r`
      succeeds and nil when it does not, whatever `translate` returned. */
  lemma ZipResult(branch: Branch, randomId: string, s: Tree, t: Tools)
    ensures ZipRun(branch, randomId, s, t).0.Raised? <==> !ReachesArchive(s, t)
    ensures ReachesArchive(s, t) ==>
      var version := VersionMarker.ReadVersion(t.index).value;
      ZipRun(branch, randomId, s, t).0 ==
        Returned(if t.zip.Truthy() then Some(ZipName(branch, version, randomId)) else None)
  {
  }

  /** The minification passes leave the translation directories and the
      packages directory alone. */
  lemma MinifyKeepsOthers(s: Tree, t: Tools)
    ensures var m := MinifyRun(s, t).1;
      m.languages == s.languages && m.staging == s.staging && m.packages == s.packages
  {
  }

  /** When the version and the minification pass complete, `zip` is the
      archive step on the minified tree. */
  lemma ZipRunReachesArchiveRun(branch: Branch, randomId: string, s: Tree, t: Tools)
    requires VersionMarker.ReadVersion(t.index).Returned? && MinifyRun(s, t).0.None?
    ensures ZipRun(branch, randomId, s, t) ==
      ArchiveRun(ZipName(branch, VersionMarker.ReadVersion(t.index).value, randomId), MinifyRun(s, t).1, t)
  {
  }

  /** The archive step adds the archive under `name` when `zip -r`
      succeeds, and otherwise leaves the packages directory alone. */
  lemma ArchiveRunPackages(name: string, s: Tree, t: Tools)
    ensures var a := ArchiveRun(name, s, t);
      a.0.Returned? && a.0.value.Some? ==> a.0.value.value == name && a.1.packages == s.packages[name := t.archive]
    ensures var a := ArchiveRun(name, s, t);
      !(a.0.Returned? && a.0.value.Some?) ==> a.1.packages == s.packages
  {
  }

  /** A successful archive step stores the archive under the returned name,
      every other archive in the packages directory staying as it was. */
  lemma ZipStoresArchive(branch: Branch, randomId: string, s: Tree, t: Tools)
    ensures var z := ZipRun(branch, randomId, s, t);
      z.0.Returned? && z.0.value.Some? ==>
        z.1.packages == s.packages[z.0.value.value := t.archive]
  {
    var version := VersionMarker.ReadVersion(t.index);
    if version.Returned? && MinifyRun(s, t).0.None? {
      MinifyKeepsOthers(s, t);
      ZipRunReachesArchiveRun(branch, randomId, s, t);
      ArchiveRunPackages(ZipName(branch, version.value, randomId), MinifyRun(s, t).1, t);
    }
  }

  /** A failed archive step, or an exception, leaves the packages directory
      unchanged. */
  lemma ZipFailureKeepsPackages(branch: Branch, randomId: string, s: Tree, t: Tools)
    ensures var z := ZipRun(branch, randomId, s, t);
      !(z.0.Returned? && z.0.value.Some?) ==> z.1.packages == s.packages
  {
    var version := VersionMarker.ReadVersion(t.index);
    MinifyKeepsOthers(s, t);
    if version.Returned? && MinifyRun(s, t).0.None? {
      ZipRunReachesArchiveRun(branch, randomId, s, t);
      ArchiveRunPackages(ZipName(branch, version.value, randomId), MinifyRun(s, t).1, t);
    }
  }

  /** The returned archive name records the branch recorded in
      `@current_branch` (master unless the checkout command succeeded), the
      version of `index.php` and the random id. */
  lemma ZipNameRecordsBuild(branch: Branch, randomId: string, s: Tree, t: Tools)
    requires IsRandomId(randomId)
    ensures var r := ZipRun(branch, randomId, s, t).0;
      r.Returned? && r.value.Some? ==>
        VersionMarker.ReadVersion(t.index).Returned?
        && ParseZipName(r.value.value) == Some((branch, VersionMarker.ReadVersion(t.index).value, randomId))
  {
    var r := ZipRun(branch, randomId, s, t).0;
    if r.Returned? && r.value.Some? {
      var version := VersionMarker.ReadVersion(t.index).value;
      assert r.value.value == ZipName(branch, version, randomId);
      ParseZipNameInverts(branch, version, randomId);
    }
  }

  /** A failing translation does not stop the archive: when every step
      before it completes, the outcome of `zip` is the same whatever value
      `translate` returned. */
  lemma ZipIgnoresTranslation(branch: Branch, randomId: string, s: Tree, t: Tools, other: Translation.Tools)
    requires ReachesArchive(s, t) && ReachesArchive(s, t.(translation := other))
    ensures ZipRun(branch, randomId, s, t).0 == ZipRun(branch, randomId, s, t.(translation := other)).0
  {
    var t' := t.(translation := other);
    ZipResult(branch, randomId, s, t);
    ZipResult(branch, randomId, s, t');
  }

  /** The calls made on a repository, in the order they are made. */
  datatype Step = CloneStep | CheckoutStep | VersionStep | ZipStep | CleanStep

  /** A working copy: its random id and directory, the branch recorded in
      `@current_branch` (master unless the checkout command succeeded),
      whether it is on disk, the directories `zip` works on, and the calls
      made on it. */
  class Repo {
    const randomId: string
    const localUrl: string
    var currentBranch: Branch
    /** Whether the working copy exists on disk. */
    var onDisk: bool
    const dirs: Dirs
    /** The calls made on this repository so far. */
    var trace: seq<Step>

    /** `Repo.new`: `randomId` stands for `SecureRandom.hex(5)` and `pwd` for
        `Dir.pwd`; `checkout` has not been called yet, so the current branch
        is master. */
    constructor (randomId: string, pwd: string, dirs: Dirs)
      requires IsRandomId(randomId)
      ensures this.randomId == randomId && localUrl == LocalUrl(pwd, randomId)
      ensures currentBranch == Master && !onDisk && this.dirs == dirs && trace == []
    {
      this.randomId := randomId;
      localUrl := LocalUrl(pwd, randomId);
      currentBranch := Master;
      onDisk := false;
      this.dirs := dirs;
      trace := [];
    }

    /** `clone`: `git clone` into the working copy; `status` is what
        `system` returned. */
    method Clone(status: Value) returns (r: Value)
      modifies this
      ensures r == status && currentBranch == old(currentBranch)
      ensures onDisk == (old(onDisk) || status.Truthy())
      ensures trace == old(trace) + [CloneStep]
    {
      trace := trace + [CloneStep];
      if status.Truthy() {
        onDisk := true;
      }
      r := status;
    }

    /** `clean`: `rm -rf` of the working copy. */
    method Clean(status: Value) returns (r: Value)
      modifies this
      ensures r == status && currentBranch == old(currentBranch)
      ensures onDisk == (old(onDisk) && !status.Truthy())
      ensures trace == old(trace) + [CleanStep]
    {
      trace := trace + [CleanStep];
      if status.Truthy() {
        onDisk := false;
      }
      r := status;
    }

    /** `checkout(branch)`: `git checkout` and `git pull` of `branch`. Only
        when the command succeeds does the current branch become `branch`;
        the value is then the branch, and nil otherwise. */
    method Checkout(branch: Branch, status: Value) returns (r: Option<Branch>)
      modifies this
      ensures r == if status.Truthy() then Some(branch) else None
      ensures currentBranch == if status.Truthy() then branch else old(currentBranch)
      ensures onDisk == old(onDisk)
      ensures trace == old(trace) + [CheckoutStep]
    {
      trace := trace + [CheckoutStep];
      r := None;
      if status.Truthy() {
        currentBranch := branch;
        r := Some(branch);
      }
    }

    /** `version`, on the content of the working copy's `index.php`. */
    method Version(index: Option<string>) returns (r: Outcome<string>)
      modifies this
      ensures r == VersionMarker.ReadVersion(index)
      ensures currentBranch == old(currentBranch) && onDisk == old(onDisk)
      ensures trace == old(trace) + [VersionStep]
    {
      trace := trace + [VersionStep];
      match index
      case None =>
        r := Raised(NoSuchEntry("index.php"));
      case Some(text) =>
        var m := VersionMarker.Match(text);
        if m.None? {
          r := Raised(NilMatch);
        } else {
          r := Returned(Strip(text[m.value.0 + |VersionMarker.VersionLabel|..m.value.1]));
        }
    }

    /** The two minification calls of `zip`. */
    method MinifyAssets(t: Tools) returns (raised: Option<Error>)
      requires dirs.Separate()
      modifies dirs.js, dirs.css
      ensures (raised, dirs.State()) == MinifyRun(old(dirs.State()), t)
    {
      raised := Minifier.MinifyJs(dirs.js, t.jsListing, t.uglify);
      if raised.None? {
        raised := Minifier.MinifyCss(dirs.css, t.cssListing, t.scss);
      }
    }

    /** The translation and archive calls of `zip`, `name` being the
        archive name. */
    method Archive(name: string, t: Tools) returns (r: Outcome<Option<string>>)
      requires dirs.Separate()
      modifies dirs.languages, dirs.staging, dirs.packages
      ensures (r, dirs.State()) == ArchiveRun(name, old(dirs.State()), t)
    {
      var transifex := new Translation.Transifex(dirs.languages, dirs.staging);
      var translated := transifex.Translate(t.translation);
      if translated.Raised? {
        return Raised(translated.error);
      }
      if t.zip.Truthy() {
        dirs.packages.files := dirs.packages.files[name := t.archive];
        return Returned(Some(name));
      }
      r := Returned(None);
    }

    /** `zip`, step by step on the directories; it reads the version again
        with `self.version`. */
    method Zip(t: Tools) returns (r: Outcome<Option<string>>)
      requires dirs.Separate()
      modifies this, dirs.js, dirs.css, dirs.languages, dirs.staging, dirs.packages
      ensures (r, dirs.State()) == ZipRun(currentBranch, randomId, old(dirs.State()), t)
      ensures currentBranch == old(currentBranch) && onDisk == old(onDisk)
      ensures trace == old(trace) + [ZipStep, VersionStep]
    {
      trace := trace + [ZipStep];
      var version := Version(t.index);
      if version.Raised? {
        return Raised(version.error);
      }
      var zipFile := ZipName(currentBranch, version.value, randomId);
      var raised := MinifyAssets(t);
      if raised.Some? {
        return Raised(raised.value);
      }
      ZipRunReachesArchiveRun(currentBranch, randomId, old(dirs.State()), t);
      r := Archive(zipFile, t);
    }
  }
}
