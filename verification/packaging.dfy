/** `Package#pack` and `Package#url`: a package is built by cloning the
    repository into a fresh working copy, checking out the package's branch,
    reading the version, zipping, and removing the working copy. */
module Packaging {
  import opened Platform
  import opened Files
  import VersionMarker
  import opened Repository

  /** `PACKAGES_DIR`, the public directory of the archives. */
  const PackagesDir: string := "packages"

  /** `url`: `"#{PACKAGES_DIR}/#{self.zip_file}"`; nil interpolates as "". */
  function Url(zipFile: Option<string>): string {
    PackagesDir + "/" + (if zipFile.Some? then zipFile.value else "")
  }

  /** Served from the `public` directory, the URL of a package is the path
      `zip -r` wrote its archive to. */
  lemma UrlLocatesArchive(pwd: string, zipFile: string)
    ensures pwd + "/public/" + Url(Some(zipFile)) == PackagesPath(pwd) + "/" + zipFile
  {
    assert pwd + "/public/" + Url(Some(zipFile)) == (pwd + "/public/" + PackagesDir) + "/" + zipFile;
  }

  /** Every call made on the repository by a complete `pack`: `zip` reads
      the version again before anything else. */
  const AllSteps: seq<Step> := [CloneStep, CheckoutStep, VersionStep, ZipStep, VersionStep, CleanStep]

  /** How `pack` ended: `throw :halt` after a failed clone, an exception from
      `version` or `zip`, or a normal return with the value of `clean`. */
  datatype PackResult = Halted | Failed(error: Error) | Packed(cleaned: Value)

  /** The `system` results of `git clone`, of the checkout command and of
      `rm -rf`, and what `zip` meets. */
  datatype BuildTools = BuildTools(clone: Value, checkout: Value, repo: Repository.Tools, clean: Value)

  /** The end of `pack`: how it ended, how many calls it made on the
      repository (they are `AllSteps[..calls]`), the package's `version` and
      `zip_file`, the repository's current branch, whether its working copy
      is still on disk, and the directories. */
  datatype Build = Build(result: PackResult, calls: nat, version: Option<string>, zipFile: Option<string>,
                         currentBranch: Branch, onDisk: bool, tree: Tree)

  /** The control flow of `pack` for a package of `branch` whose fields
      were `version` and `zipFile` before, given what each call answers:
      `read` is the outcome of `version` and `zip` that of `zip` with the
      directories it leaves. The result of `checkout` is not looked at:
      `branch` is the branch recorded in `@current_branch`, master unless
      the checkout command succeeded. */
  function PackWith(branch: Branch, version: Option<string>, zipFile: Option<string>, s: Tree,
                    clone: Value, checkout: Value, read: Outcome<string>,
                    zip: (Outcome<Option<string>>, Tree), clean: Value): Build
  {
    var current := if checkout.Truthy() then branch else Master;
    if !clone.Truthy() then Build(Halted, 1, version, zipFile, Master, false, s)
    else match read
      case Raised(e) => Build(Failed(e), 3, version, zipFile, current, true, s)
      case Returned(v) =>
        match zip.0
        case Raised(e) => Build(Failed(e), 5, Some(v), zipFile, current, true, zip.1)
        case Returned(name) => Build(Packed(clean), 6, Some(v), name, current, !clean.Truthy(), zip.1)
  }

  /** `pack` on the directories `s`, with the repository's answers `b`;
      `zip` runs on the branch the checkout left. */
  function PackRun(branch: Branch, version: Option<string>, zipFile: Option<string>,
                   randomId: string, s: Tree, b: BuildTools): Build
  {
    var current := if b.checkout.Truthy() then branch else Master;
    PackWith(branch, version, zipFile, s, b.clone, b.checkout, VersionMarker.ReadVersion(b.repo.index),
             ZipRun(current, randomId, s, b.repo), b.clean)
  }

  /** The prefixes of `AllSteps` that `pack` can make. */
  lemma AllStepsPrefixes()
    ensures AllSteps[..1] == [CloneStep]
    ensures AllSteps[..3] == [CloneStep, CheckoutStep, VersionStep]
    ensures AllSteps[..5] == [CloneStep, CheckoutStep, VersionStep, ZipStep, VersionStep]
    ensures AllSteps[..6] == AllSteps && AllSteps[5] == CleanStep
    ensures forall n :: 0 <= n <= 5 ==> CleanStep !in AllSteps[..n]
  {
    forall n | 0 <= n <= 5
      ensures CleanStep !in AllSteps[..n]
    {
      assert forall k :: 0 <= k < n ==> AllSteps[..n][k] == AllSteps[k];
    }
  }

  /** How many calls `pack` makes, by how it ended. */
  lemma PackCalls(branch: Branch, version: Option<string>, zipFile: Option<string>, s: Tree,
                  clone: Value, checkout: Value, read: Outcome<string>,
                  zip: (Outcome<Option<string>>, Tree), clean: Value)
    ensures var p := PackWith(branch, version, zipFile, s, clone, checkout, read, zip, clean);
      (p.result.Halted? <==> p.calls == 1) && (p.result.Packed? <==> p.calls == 6)
      && (p.result.Failed? <==> p.calls == 3 || p.calls == 5)
  {
  }

  /** A failed clone halts `pack` before any other call: nothing is checked
      out, read, zipped or cleaned, and no field or directory changes. */
  lemma PackHaltsOnFailedClone(branch: Branch, version: Option<string>, zipFile: Option<string>, s: Tree,
                               clone: Value, checkout: Value, read: Outcome<string>,
                               zip: (Outcome<Option<string>>, Tree), clean: Value)
    ensures var p := PackWith(branch, version, zipFile, s, clone, checkout, read, zip, clean);
      p.result.Halted? <==> !clone.Truthy()
    ensures var p := PackWith(branch, version, zipFile, s, clone, checkout, read, zip, clean);
      p.result.Halted? ==> p.calls == 1 && p.version == version && p.zipFile == zipFile && p.tree == s
  {
  }

  /** The calls are made in the fixed order clone, checkout, version, zip
      (which calls version), clean, and stop at the first that halts or
      raises: `clean` is made, and made last, exactly when `pack` returns
      normally. */
  lemma PackStepsInOrder(branch: Branch, version: Option<string>, zipFile: Option<string>, s: Tree,
                         clone: Value, checkout: Value, read: Outcome<string>,
                         zip: (Outcome<Option<string>>, Tree), clean: Value)
    ensures var p := PackWith(branch, version, zipFile, s, clone, checkout, read, zip, clean);
      1 <= p.calls <= |AllSteps|
    ensures var p := PackWith(branch, version, zipFile, s, clone, checkout, read, zip, clean);
      CleanStep in AllSteps[..p.calls] <==> p.result.Packed?
    ensures var p := PackWith(branch, version, zipFile, s, clone, checkout, read, zip, clean);
      p.result.Packed? ==> AllSteps[..p.calls] == AllSteps && AllSteps[p.calls - 1] == CleanStep
    ensures var p := PackWith(branch, version, zipFile, s, clone, checkout, read, zip, clean);
      p.result.Failed? ==> (AllSteps[..p.calls] == [CloneStep, CheckoutStep, VersionStep]
                            || AllSteps[..p.calls] == [CloneStep, CheckoutStep, VersionStep, ZipStep, VersionStep])
  {
    PackCalls(branch, version, zipFile, s, clone, checkout, read, zip, clean);
    AllStepsPrefixes();
  }

  /** Cleanup is not guaranteed: the working copy is left on disk whenever
      `version` or `zip` raises, and removed only by a successful `clean`. */
  lemma PackLeavesCopyUnlessCleaned(branch: Branch, version: Option<string>, zipFile: Option<string>, s: Tree,
                                    clone: Value, checkout: Value, read: Outcome<string>,
                                    zip: (Outcome<Option<string>>, Tree), clean: Value)
    ensures var p := PackWith(branch, version, zipFile, s, clone, checkout, read, zip, clean);
      p.onDisk <==> clone.Truthy() && !(p.result.Packed? && clean.Truthy())
    ensures var p := PackWith(branch, version, zipFile, s, clone, checkout, read, zip, clean);
      p.result.Failed? ==> p.onDisk
  {
  }

  /** After a normal return, `version` is the version of `index.php` and the
      archive name, when there is one, records the branch recorded in
      `@current_branch` (master unless the checkout command succeeded),
      that same version and the random id. */
  lemma PackRecordsBuild(branch: Branch, version: Option<string>, zipFile: Option<string>,
                         randomId: string, s: Tree, b: BuildTools)
    requires IsRandomId(randomId)
    ensures var p := PackRun(branch, version, zipFile, randomId, s, b);
      p.result.Packed? ==>
        VersionMarker.ReadVersion(b.repo.index) == Returned(p.version.value)
        && p.currentBranch == (if b.checkout.Truthy() then branch else Master)
        && (p.zipFile.Some? ==> ParseZipName(p.zipFile.value) == Some((p.currentBranch, p.version.value, randomId)))
  {
    var p := PackRun(branch, version, zipFile, randomId, s, b);
    if p.result.Packed? {
      ZipNameRecordsBuild(p.currentBranch, randomId, s, b.repo);
    }
  }

  /** A package record being built. */
  class Package {
    const branch: Branch
    var version: Option<string>
    var zipFile: Option<string>
    /** `@repo`, set by `pack`. */
    var repo: Repo?

    /** `Package.new` with the branch from the request. */
    constructor (branch: Branch)
      ensures this.branch == branch && version == None && zipFile == None && repo == null
    {
      this.branch := branch;
      version := None;
      zipFile := None;
      repo := null;
    }

    /** The part of `pack` after a successful clone, on the new repository
        `r`: checkout, version, zip and clean. */
    method PackCloned(r: Repo, b: BuildTools) returns (result: PackResult, calls: nat)
      requires r.dirs.Separate() && r.currentBranch == Master && r.onDisk && r.trace == [CloneStep]
      modifies this, r, r.dirs.js, r.dirs.css, r.dirs.languages, r.dirs.staging, r.dirs.packages
      ensures var p := PackWith(branch, old(version), old(zipFile), old(r.dirs.State()), RTrue, b.checkout,
                                VersionMarker.ReadVersion(b.repo.index),
                                ZipRun(if b.checkout.Truthy() then branch else Master, r.randomId, old(r.dirs.State()), b.repo),
                                b.clean);
        && result == p.result && calls == p.calls && version == p.version && zipFile == p.zipFile
        && r.currentBranch == p.currentBranch && r.onDisk == p.onDisk && r.dirs.State() == p.tree
      ensures r.trace == AllSteps[..calls]
    {
      ghost var s := r.dirs.State();
      var _ := r.Checkout(branch, b.checkout);
      assert r.dirs.State() == s;
      ghost var current := r.currentBranch;
      var v := r.Version(b.repo.index);
      if v.Raised? {
        AllStepsPrefixes();
        return Failed(v.error), |r.trace|;
      }
      version := Some(v.value);
      var z := r.Zip(b.repo);
      ghost var zipped := r.dirs.State();
      result := PackZipped(r, z, b.clean);
      calls := |r.trace|;
      AllStepsPrefixes();
      assert r.currentBranch == current && r.dirs.State() == zipped;
    }

    /** The end of `pack`, once `zip` has answered `z`: an exception ends
        `pack` with it, otherwise `zip_file` is set and `clean` is called. */
    method PackZipped(r: Repo, z: Outcome<Option<string>>, clean: Value) returns (result: PackResult)
      requires r.onDisk
      modifies this, r
      ensures z.Raised? ==> result == Failed(z.error) && zipFile == old(zipFile) && r.onDisk && r.trace == old(r.trace)
      ensures z.Returned? ==> result == Packed(clean) && zipFile == z.value
                              && r.onDisk == !clean.Truthy() && r.trace == old(r.trace) + [CleanStep]
      ensures r.currentBranch == old(r.currentBranch) && version == old(version)
    {
      if z.Raised? {
        return Failed(z.error);
      }
      zipFile := z.value;
      var cleaned := r.Clean(clean);
      result := Packed(cleaned);
    }

    /** `pack`, with `randomId` standing for the new repository's
        `SecureRandom.hex(5)`, `pwd` for `Dir.pwd`, and `dirs` for the
        directories of its working copy and the shared ones. */
    method Pack(randomId: string, pwd: string, dirs: Dirs, b: BuildTools) returns (result: PackResult, calls: nat)
      requires IsRandomId(randomId) && dirs.Separate()
      modifies this, dirs.js, dirs.css, dirs.languages, dirs.staging, dirs.packages
      ensures repo != null && fresh(repo) && repo.dirs == dirs && repo.randomId == randomId
      ensures Build(result, calls, version, zipFile, repo.currentBranch, repo.onDisk, dirs.State())
        == PackRun(branch, old(version), old(zipFile), randomId, old(dirs.State()), b)
      ensures repo.trace == AllSteps[..calls]
    {
      // `@repo` is read only inside `pack`, so it is set once the calls are made.
      var r := new Repo(randomId, pwd, dirs);
      var cloned := r.Clone(b.clone);
      if !cloned.Truthy() {
        repo := r;
        assert r.trace == AllSteps[..1];
        return Halted, |r.trace|;
      }
      result, calls := PackCloned(r, b);
      repo := r;
    }
  }
}
