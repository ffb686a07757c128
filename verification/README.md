# packzip, modelled in Dafny

packzip is a small Sinatra application that builds release archives of a
WordPress plugin. An authenticated user asks for a package of the `dev` or
`master` branch. The application then:

- clones the plugin's git repository into a fresh working copy
  `tmp/<random id>`;
- checks out the branch;
- reads the plugin version from `index.php`;
- minifies the scripts and the style sheets in place;
- synchronises the translations with Transifex and compiles them with
  `msgfmt`;
- zips the working copy into `public/packages/<branch>_<version>_<id>.zip`;
- removes the working copy.

The application keeps a table of the packages built. One package per branch
can be published. Two public routes then report the published package's
version and serve its archive.

This project models that core in Dafny:

- the `Package`, `Repo`, `Minifier` and `Transifex` classes of
  `models/models.rb`;
- the table transitions and queries of the routes in `app.rb`.

Every shell command is an oracle. So are the two compilers (Uglifier, Sass),
`SecureRandom`, `Dir.pwd` and the database's answers. Each is a parameter, so
each operation is deterministic once those parameters are given.

The modules follow the program:

| module (file) | what it models |
|---|---|
| `Platform` (platform.dfy) | Ruby and shell semantics the code relies on: the true/false/nil result of `system` and its truthiness, `a and b and …`, exceptions as values (`Outcome`), `String#strip`, `File.extname`, `File.basename(name, suffix)`, the glob `*.ext` |
| `Files` (minifier.dfy) | a directory, as a class `Folder` whose field `files` maps entry names to contents |
| `VersionMarker` (version.dfy) | `Repo#version`: the greedy `/Version: (.*)Author:/m` match and `strip` |
| `Minifier` (minifier.dfy) | `minify_js` / `minify_css`: the loop over a directory listing that rewrites each `.js` / `.css` entry through a `temp-` file |
| `Translation` (translation.dfy) | the `Transifex` class: `reset`, `pull`, `move`, the non-fail-fast `convert` loop, and `translate` as a short-circuit chain |
| `Repository` (repository.dfy) | the `Repo` class: the working copy, `checkout` updating `@current_branch`, the archive name and `zip` |
| `Packaging` (packaging.dfy) | the `Package` class: `pack`, whose calls are clone, checkout, version, zip and clean, and `url` |
| `App` (app.dfy) | `authorized?`, the package table and the routes `/`, `/package`, `/publish`, `/release/check`, `/release/zip` |

Stateful code is imperative Dafny and is proved against pure functions.

- **Directories.** Each directory is a `Folder` object. The loops of
  `minify_*` and `convert` are `while` loops over a snapshot of the listing.
  Each loop is proved equal to a recursive function over that listing
  (`Rewrite`, `ConvertPass`). The properties the code promises are then
  lemmas about those functions.
- **`Repo` and `Package`.** These are classes whose methods update
  `@current_branch`, the on-disk flag, `version` and `zip_file`. Each `Repo`
  method also appends its call to the repository's `trace`. `Repo.Zip` is
  proved equal to `ZipRun`, and `Package.Pack` to `PackRun`, with the trace
  it leaves being the first `calls` entries of `AllSteps`.
- **The package table.** `PackageTable` has a `rows` sequence and the next
  serial id. Its routes are proved equal to `CreateRoute` and
  `PublishRouteAsWritten`. Both keep the table invariant `TableOk`, and so
  does the corrected `PublishRoute`:
  - ids are ascending and below the next id;
  - every row passes validation;
  - each branch has at most one published package.

### Behaviour worth knowing

- **The version match is greedy.** The `.*` of `/Version: (.*)Author:/m`
  runs from the first `Version: ` to the LAST `Author:` after it
  (`GreedyCaptureKeepsEarlierAuthor`).
- **A failed checkout does not stop the build.** `pack` ignores the value
  of `checkout`. When the checkout command fails, `@current_branch` stays
  `:master`, so the archive is named after master whatever the working copy
  holds (`PackRecordsBuild`).
- **A failed translation does not stop the build.** `zip` ignores the
  value of `translate` and archives anyway (`ZipIgnoresTranslation`). A
  missing languages directory only makes `move`'s `cp` fail, so `translate`
  returns false and the archive is still made. Only an exception stops
  `zip`: a missing `index.php`, a missing `js` or `css` directory, or an
  Uglifier or Sass error.
- **Cleanup is not guaranteed.** An exception from `version` or `zip`
  leaves the working copy on disk (`PackLeavesCopyUnlessCleaned`).
- **The random id is short.** `SecureRandom.hex(5)` gives ten hexadecimal
  digits, which is 40 bits. Archive names are unique only as far as these
  ids are (`ZipNameInjective`).
- **The version is read twice.** `zip` calls `self.version` again, so a
  complete `pack` makes six calls on its repository: clone, checkout,
  version, zip, version (inside zip), clean (`PackStepsInOrder`).
- **Republishing unpublishes.** Publishing the package that is already
  published leaves its branch with no published package (see "Findings").
  `PackageTable.Publish` follows the code as written.

## Model

| member | source | states |
|---|---|---|
| `Platform.AndChainPicksFirstFalsey` | models/models.rb:199-204 | Ruby's `a and b and …` is truthy exactly when every operand is, and otherwise is the first operand that is false or nil |
| `Platform.StripIsTrimmedInfix` | models/models.rb:84 | `strip` yields an infix of its input with only whitespace around it, and the result neither starts nor ends with whitespace |
| `Platform.StripIdempotent` | models/models.rb:84 | stripping twice is stripping once |
| `Platform.ExtnameIs` | models/models.rb:117 | `File.extname(name) == ".js"` (or any one-dot extension) holds exactly when the name, leading dots removed, ends with it, so ".js" and "a.js.map" are skipped |
| `VersionMarker.MatchIsLeftmostLongest` | models/models.rb:84 | the match found is the leftmost "Version: " with the longest capture up to an "Author:" (greedy `.*`, `.` spanning line breaks); there is none exactly when the pattern matches nowhere |
| `VersionMarker.ReadVersionOutcome` | models/models.rb:81-85 | `version` raises ENOENT when `index.php` is missing, and raises on the nil of `match` exactly when the pattern matches nowhere; otherwise it is the stripped capture of the match |
| `VersionMarker.GreedyCaptureKeepsEarlierAuthor` | models/models.rb:84 | with two "Author:" markers after the first "Version: ", the version read contains the earlier one |
| `Minifier.RewriteStopsAtRaise` | models/models.rb:113-126 | once an iteration raises, the rest of the listing is never processed |
| `Minifier.RewriteEntryReplaces` | models/models.rb:118-125 | one successful iteration leaves the entry holding its compiled content, no `temp-` file (even one that was already there) and every other entry as it was; with no earlier `temp-` file only the entry changes |
| `Minifier.RewriteMinifies` | models/models.rb:113-126 | with no `temp-` file beside a listed entry, the pass completes exactly when every listed entry with the extension is a file that compiles, and then each such entry holds its compiled content and every other entry is as it was |
| `Minifier.RewriteKeepsNames` | models/models.rb:111-153 | with no `temp-` file beside a listed entry: the pass completes exactly when each listed `.js`/`.css` entry is a file that compiles, and then the set of names equals the set before, each such entry holds `minify(content)`, and every other entry is untouched |
| `Minifier.ClashAfterRaises` | models/models.rb:113-125 | with `a.js` listed before `temp-a.js`, the first iteration renames `temp-a.js` away, so the second raises ENOENT on reading it and leaves `temp-temp-a.js` behind |
| `Minifier.ClashBeforeLoses` | models/models.rb:113-125 | with `temp-a.js` listed before `a.js`, the pass completes but `temp-a.js` is truncated and renamed over `a.js`, so the listed `temp-a.js` is lost |
| `Minifier.RewriteOne` | models/models.rb:114-125 | one iteration on the directory (create the temp file, compile, write, delete, rename) has the effect and the exception of `RewriteEntry` |
| `Minifier.RewriteAssets` | models/models.rb:113-126 | the loop over the listing leaves the directory and the exception `RewriteListing` describes; a missing directory raises before anything changes |
| `Minifier.MinifyJs` | models/models.rb:111-127 | `minify_js` is the pass over the ".js" entries with Uglifier |
| `Minifier.MinifyCss` | models/models.rb:131-153 | `minify_css` is the pass over the ".css" entries with Sass |
| `Translation.ResetThenMove` | models/models.rb:166-181 | after `reset` and `move` the languages directory has no file matching `*.mo`, holds every staged `*.po` file with its staged content, keeps every other entry's content, and gains nothing else |
| `Translation.PoShape` | models/models.rb:187-190 | a ".po" entry's `msgfmt` output, named from `File.basename(po_file, '.po')`, is `<basename>.mo`, and that name leads back to the entry |
| `Translation.ConvertMatchesAfter` | models/models.rb:185-197 | `convert` attempts every listed ".po" entry whatever happened before, leaving the directory `After` describes at every name, and `converted` stays true exactly when every one compiled |
| `Translation.ConvertedIffNoneFailed` | models/models.rb:185-197 | `convert` returns true exactly when none of the listed ".po" entries fails to compile (K = 0) |
| `Translation.ConvertReplacesCompiled` | models/models.rb:189-191 | each ".po" entry that compiles is deleted and its ".mo" holds what `msgfmt` produced |
| `Translation.ConvertKeepsFailed` | models/models.rb:192-194 | each ".po" entry that fails to compile stays as it was |
| `Translation.ConvertLeavesOthers` | models/models.rb:187-195 | every name that is neither a compiled ".po" entry nor its ".mo" is untouched |
| `Translation.ConvertOutcome` | models/models.rb:185-197 | for N listed ".po" entries of which K fail: true iff K = 0, N − K compiled and K failed, and the compiled, failed and other entries end as stated above |
| `Translation.TranslateIsAndChain` | models/models.rb:199-204 | the value of `translate` is `reset and pull and move and convert` over the four steps' values |
| `Translation.TranslateStopsAtFirstFailure` | models/models.rb:199-204 | a false or nil step stops the chain: the later steps have no effect |
| `Translation.Transifex.constructor` | models/models.rb:161-163 | the object works on the given languages directory and the shared staging directory |
| `Translation.Transifex.Reset` | models/models.rb:167-169 | returns the command's result; on success the ".mo" files are gone, on failure nothing changes |
| `Translation.Transifex.Pull` | models/models.rb:173-175 | returns the command's result; on success the staging directory holds what `tx pull` fetched |
| `Translation.Transifex.Move` | models/models.rb:179-181 | returns the command's result; on success the staged ".po" files are copied in |
| `Translation.Transifex.ConvertOne` | models/models.rb:187-195 | one iteration: a compiling ".po" gets its ".mo" and is removed, a failing one only clears `converted` |
| `Translation.Transifex.Convert` | models/models.rb:185-197 | the loop leaves the directory and the result `ConvertPass` describes; a missing directory raises |
| `Translation.Transifex.Translate` | models/models.rb:199-204 | the four calls leave the directories and the value `TranslateRun` describes |
| `Repository.ParseZipNameSound` | models/models.rb:91 | every name the parser accepts is the archive name of the branch, version and id it reads |
| `Repository.ParseZipNameInverts` | models/models.rb:91 | an archive name gives back its branch, version and random id |
| `Repository.ZipNameInjective` | models/models.rb:53-54 | two builds share an archive name only when branch, version and random id all agree |
| `Repository.ZipResult` | models/models.rb:89-101 | `zip` raises exactly when a step before the archive raises; otherwise it returns `<branch>_<version>_<id>.zip` when `zip -r` succeeds and nil when it fails |
| `Repository.MinifyKeepsOthers` | models/models.rb:92-94 | the minification touches neither the translations nor the packages directory |
| `Repository.ArchiveRunPackages` | models/models.rb:95-100 | the archive step adds the archive under the returned name, or leaves the packages directory alone |
| `Repository.ZipStoresArchive` | models/models.rb:98-100 | a returned name is where the archive was stored, and every other archive is unchanged |
| `Repository.ZipFailureKeepsPackages` | models/models.rb:89-101 | when `zip` raises or returns nil, the packages directory is unchanged |
| `Repository.ZipNameRecordsBuild` | models/models.rb:90-91 | the returned name parses back to the branch recorded in `@current_branch`, the version of `index.php` and the random id |
| `Repository.ZipIgnoresTranslation` | models/models.rb:95-100 | when no step raises, `zip`'s result is the same whatever `translate` returned |
| `Repository.Repo.constructor` | models/models.rb:51-56 | a new working copy has its random id, its directory `<pwd>/tmp/<id>`, branch master, and is not yet on disk |
| `Repository.Repo.Clone` | models/models.rb:60-62 | returns the command's result; the copy is on disk after a successful clone; the call is appended to the trace |
| `Repository.Repo.Clean` | models/models.rb:66-68 | returns the command's result; the copy is gone after a successful `rm -rf`; the call is appended to the trace |
| `Repository.Repo.Checkout` | models/models.rb:73-77 | the current branch becomes `branch` only when the command succeeds (the value is then the branch), and otherwise stays and the value is nil; the call is appended to the trace |
| `Repository.Repo.Version` | models/models.rb:81-85 | the step-by-step read of `index.php` yields `ReadVersion`; only the trace changes |
| `Repository.Repo.MinifyAssets` | models/models.rb:92-94 | the scripts pass, then the style sheets pass unless the first raised, as `MinifyRun` |
| `Repository.Repo.Archive` | models/models.rb:95-100 | `translate`, then `zip -r`, as `ArchiveRun` |
| `Repository.Repo.Zip` | models/models.rb:89-101 | `zip` on the directories leaves them and returns what `ZipRun` of the current branch describes; the trace gains zip and then the inner version call |
| `Packaging.UrlLocatesArchive` | models/models.rb:33-35 | served from `public`, `packages/<zip_file>` is the path `zip -r` wrote the archive to |
| `Packaging.PackCalls` | models/models.rb:22-31 | `pack` makes one call on its repository when it halts, three when `version` raises, five when `zip` raises, six when it returns |
| `Packaging.PackHaltsOnFailedClone` | models/models.rb:24-26 | `pack` halts exactly when the clone fails, and then nothing else is called and nothing changes |
| `Packaging.PackStepsInOrder` | models/models.rb:22-31 | the calls are a prefix of clone, checkout, version, zip, version (inside zip), clean; `clean` is called, and last, exactly when `pack` returns |
| `Packaging.PackLeavesCopyUnlessCleaned` | models/models.rb:24-30 | the working copy stays on disk unless `pack` returned and `clean` succeeded; every exception leaves it |
| `Packaging.PackRecordsBuild` | models/models.rb:27-29 | after `pack` returns, `version` is that of `index.php` and the archive name records the branch in `@current_branch` (master unless the checkout command succeeded), the version and the id |
| `Packaging.Package.constructor` | models/models.rb:11-16 | a new package has its branch and no version or archive yet |
| `Packaging.Package.PackCloned` | models/models.rb:27-30 | checkout, version, zip and clean after a successful clone, as `PackWith` describes, leaving the calls it made in the trace |
| `Packaging.Package.PackZipped` | models/models.rb:29-30 | after `zip`: an exception ends `pack` with no further call, otherwise `zip_file` is set and `clean` is called |
| `Packaging.Package.Pack` | models/models.rb:22-31 | `pack` leaves the package's fields, the working copy and the directories as `PackRun` describes, and the repository's trace is the first `calls` entries of `AllSteps` |
| `App.AuthorizedExactly` | app.rb:26-28 | a request is authorized exactly when it provides Basic credentials equal to the configured user name and password, both set |
| `App.LastIsNewest` | app.rb:52-55 | `@last_dev` / `@last_master` is the branch's row with the largest id, and is nil exactly when the branch has no package |
| `App.HomeLists` | app.rb:52-53 | each list holds exactly the branch's packages, in reverse table order |
| `App.FirstPublishedIsTheOne` | app.rb:100-103 | with at most one published package per branch, the query finds a package exactly when it is the branch's published one |
| `App.FirstPublishedNone` | app.rb:100-106 | the query finds nothing exactly when the branch has no published package |
| `App.ReleaseRoutesAgree` | app.rb:98-120 | both release routes answer from the same package, and the zip route serves `public/packages/<zip_file>` |
| `App.CreateDestroysUnpublished` | app.rb:61-76 | exactly the branch's unpublished packages are destroyed; the only row added is the new unpublished package, saved exactly when `pack` returned and the row validates and is stored |
| `App.CreateKeepsTableOk` | app.rb:59-77 | creating a package keeps ids ascending, rows valid and at most one published package per branch |
| `App.IndexOf` | app.rb:81 | `Package.get(id)` finds the row with that id, or none when no row has it |
| `App.AsWrittenTable` | app.rb:81-87 | the table the route as written leaves is the corrected route's table with the update not stored when the target is already published |
| `App.PublishTouchesOnlyPublished` | app.rb:82-87 | publishing, as written and as corrected, changes no field but `published` and no row of the other branch; a missing id or an unauthorized request changes nothing |
| `App.PublishOutcome` | app.rb:81-91 | as written: publishing a package not yet published, with its update stored, makes it the branch's only published package; a failed update, or publishing the package already published, leaves the branch with none, because the reset is not rolled back; the other branch's rows stay |
| `App.IntendedPublishOutcome` | app.rb:86-91 | on the corrected route (see Findings): after a stored update the target is the branch's only published package; after a failed update the branch has none |
| `App.PublishThenCheck` | app.rb:79-106 | on the corrected route (see Findings): after a stored publish, `/release/check` of the branch reports the target's version |
| `App.PublishKeepsRowsValid` | app.rb:79-93 | publishing, as written and as corrected, keeps ids ascending and every row valid |
| `App.PublishKeepsOnePublished` | app.rb:81-87 | publishing, as written and as corrected, leaves each branch with at most one published package |
| `App.PublishKeepsTableOk` | app.rb:79-93 | publishing, as written and as corrected, keeps the table invariant |
| `App.RepublishUnpublishes` | app.rb:81-87 | as written, publishing the already published package reports success and leaves the branch with no published package |
| `App.RepublishExample` | app.rb:81-87 | the smallest case: one published dev package, published again, is unpublished, while the intended route keeps it published |
| `App.PackageTable.constructor` | models/models.rb:11-18 | the table starts empty, with serial ids from 1 |
| `App.PackageTable.CreatePackage` | app.rb:59-77 | `post "/package"`: `protected!`, the destroy, `pack` and `save` leave the table, the reply and the directories as `CreateRoute` and `PackRun` describe |
| `App.PackageTable.Save` | app.rb:71-76 | `package.save` adds the row with the next id exactly when `pack` returned and the row validates and is stored |
| `App.PackageTable.Publish` | app.rb:79-93 | `post "/publish"` as written: `protected!`, `Package.get`, the reset and the update (a no-op on an already published target) leave the table and the reply as `PublishRouteAsWritten` describes |

## Findings

| source | as written | input that shows it | evidently intended | confidence | as-written member | corrected member |
|---|---|---|---|---|---|---|
| app.rb:81-87 | `package` is loaded before `previous_public.update(:published => false)`, so an already published target still reads `published == true` in memory. `package.update(:published => true)` then changes nothing, writes nothing and succeeds, while the reset has unpublished it in the database | publishing the package that is already the branch's published package | the target ends as the branch's published package | medium (depends on DataMapper's dirty tracking and on there being no shared identity map); not executed | `App.RepublishUnpublishes` (on `App.PublishRouteAsWritten`; concrete case `App.RepublishExample`) | `App.PublishThenCheck` (on `App.PublishRoute`; see also `App.IntendedPublishOutcome`) |

## Left out

- Shell commands are oracles. The commands are `git clone`, `git checkout && git pull`, `rm -rf`, `zip -r`, `tx pull`, `cp`, `msgfmt` and `rm`. Each `system` result (true, false or nil) is a parameter. On success the command has its documented effect, and on failure none. Partial effects of a failing command are not modelled, and neither is shell quoting of the names.
- What `git clone` writes is not modelled. The working copy's directories, `index.php` and the listings are given as they are after the clone. The archive `zip -r` writes is a given string.
- Uglifier and Sass are foreign libraries. Each is a function from content to compiled content, or to an error.
- `SecureRandom.hex(5)` and `Dir.pwd` are parameters.
- Concurrent builds racing on the shared Transifex directory are not modelled. Nor is whether the lazy `Dir#each` sees the `temp-` files created during the loop: the listing is a snapshot taken when the directory is opened.
- Translation.Transifex.ConvertOne: the `rm` of a compiled ".po" is taken to succeed, because its result is ignored by the code. A failed `rm` would leave the ".po" beside its ".mo".
- Minifier.RewriteMinifies: stated only for listings without repeated names (a directory listing never has them) and without a `temp-` file already beside a listed `.js`/`.css` entry. Such a clash changes the outcome: a `temp-` file listed after its entry makes the pass raise and leaves a `temp-temp-` file (`ClashAfterRaises`), and one listed before its entry is lost (`ClashBeforeLoses`).
- Minifier.RewriteKeepsNames: stated under the same two conditions as `RewriteMinifies`, for the same reasons.
- A listed entry that is not a regular file, such as a subdirectory named `x.js`, makes `File.read` raise EISDIR in the code. The model raises `NoSuchEntry` for it: it has the same effect on the loop but a different exception class.
- Translation.ConvertMatchesAfter: stated only for listings without repeated names, which a directory listing never has.
- VersionMarker.ReadVersionOutcome: `index.php` is taken to be valid text in Ruby's default external encoding. When it is not, `match` raises ArgumentError (invalid byte sequence), and that exception path is not modelled.
- The checkout command is `git checkout B && git pull origin B`, one `system` call. If the checkout succeeds and the pull fails, the working copy is on B but `@current_branch` stays master, so the archive is named `master_…` and holds B's files. If the checkout itself fails, the copy stays on the clone's default branch. The model records only `@current_branch`, not what the working copy holds.
- The `before :destroy` hook, which runs `rm` on a destroyed package's archive, is not modelled. Destroying rows leaves the packages directory as it was.
- Persistence is not modelled. This covers DataMapper, sqlite, `created_at` and `updated_at`. Whether the database stores a saved row or an update is a parameter (`stored`, `updated`). The only validation modelled is the default 50-character limit on the `version` and `zip_file` strings.
- `Package.new(params[:package])` is taken to assign only the branch. Mass assignment of other fields is not modelled.
- App.PackageTable.CreatePackage: takes a `Branch`, so a `post "/package"` whose `params[:package]` is missing or names a branch other than dev or master is not modelled. For such a request the code still destroys the matching unpublished rows, then runs `pack` in full: clone, `checkout` of that branch, `version`, and `zip`, which writes an archive to `public/packages`. Only then does `save` fail on the required `Enum[:dev, :master]` branch. The route flashes the error and leaves that archive behind, with no row pointing to it. `CreateRoute` has the same limit.
- Translation.TranslateRun: `convert` may raise `NoSuchDirectory` after a successful `move`, when the listing is absent. In the code this happens only if the languages directory disappears between `cp` and `Dir.open`, because `cp` into the missing `languages/` directory already fails. The model therefore allows more runs than the code can produce.
- App.ReleaseCheck and App.ReleaseZip take a branch. A `params[:branch]` that is neither "dev" nor "master" is not modelled.
- Parsing of the Basic-auth header and its case-insensitive scheme are outside the model. Whether a header is present, whether it is Basic and the decoded credentials are given. The `@auth` memoisation has no effect on the result.
- Routing, sessions, flash texts, `halt`, `redirect`, `send_file` and the `erb` view are outside the model. A route's outcome is a `Reply`: unauthorized, halted, crashed, or redirected with or without an error flash.
- The browser script `public/js/start.js` is not part of this model.
- `pack` assigns `@repo` when the repository is created. The model assigns it once the calls are made, because nothing reads it in between.
