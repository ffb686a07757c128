/** The web application's package table and its routes: `post "/package"`
    destroys the branch's unpublished packages, builds a new one and saves
    it; `post "/publish"` makes one package the published package of its
    branch; `get "/release/check"` and `get "/release/zip"` answer with the
    published package of a branch; `get "/"` lists the packages of each
    branch, newest first. The admin routes are guarded by HTTP Basic
    authentication. */
module App {
  import opened Platform
  import opened Files
  import opened Repository
  import Packaging

  // ---------------------------------------------------------------------
  // Authentication

  /** What Rack reads from the request's `Authorization` header: whether
      there is one, whether its scheme is Basic, and the decoded
      credentials split at the first ':' (one or two strings). */
  datatype AuthRequest = AuthRequest(provided: bool, basic: bool, credentials: seq<string>)

  /** `ENV['USERNAME']` and `ENV['PASSWORD']`, nil when unset. */
  datatype Env = Env(username: Option<string>, password: Option<string>)

  function Lift(names: seq<string>): (r: seq<Option<string>>)
    ensures |r| == |names| && forall k :: 0 <= k < |names| ==> r[k] == Some(names[k])
  {
    if names == [] then [] else [Some(names[0])] + Lift(names[1..])
  }

  /** `authorized?`: `provided? and basic? and credentials and credentials ==
      [ENV['USERNAME'], ENV['PASSWORD']]`; a string never equals nil. */
  predicate Authorized(request: AuthRequest, env: Env) {
    request.provided && request.basic && Lift(request.credentials) == [env.username, env.password]
  }

  /** A request is let through exactly when it carries Basic credentials
      that are the configured user name and password, both set. */
  lemma AuthorizedExactly(request: AuthRequest, env: Env)
    ensures Authorized(request, env) <==>
      && request.provided && request.basic && env.username.Some? && env.password.Some?
      && request.credentials == [env.username.value, env.password.value]
  {
    var l := Lift(request.credentials);
    if Authorized(request, env) {
      assert |request.credentials| == 2 && l[0] == env.username && l[1] == env.password;
      assert request.credentials == [request.credentials[0], request.credentials[1]];
    }
  }

  // ---------------------------------------------------------------------
  // The table

  /** A row of the `packages` table. */
  datatype Record = Record(id: nat, branch: Branch, version: Option<string>, published: bool,
                           zipFile: Option<string>)

  /** The rows in key order (`Package.all` and `Package.first` order by the
      serial id) and the id the next saved row receives. */
  datatype Table = Table(rows: seq<Record>, nextId: nat)

  /** The rows of `s` that `keep` selects, in order. */
  function Filter(s: seq<Record>, keep: Record -> bool): (r: seq<Record>)
    ensures |r| <= |s|
  {
    if s == [] then [] else (if keep(s[0]) then [s[0]] else []) + Filter(s[1..], keep)
  }

  lemma {:induction false} FilterMembers(s: seq<Record>, keep: Record -> bool)
    ensures forall x :: x in Filter(s, keep) <==> x in s && keep(x)
  {
    if s != [] {
      FilterMembers(s[1..], keep);
      assert forall x :: x in s <==> x == s[0] || x in s[1..];
    }
  }

  predicate Ascending(rows: seq<Record>) {
    forall i, j :: 0 <= i < j < |rows| ==> rows[i].id < rows[j].id
  }

  /** A selection keeps the rows in key order. */
  lemma {:induction false} FilterAscending(s: seq<Record>, keep: Record -> bool)
    requires Ascending(s)
    ensures Ascending(Filter(s, keep))
  {
    if s != [] {
      var rest := Filter(s[1..], keep);
      FilterAscending(s[1..], keep);
      FilterMembers(s[1..], keep);
      forall k | 0 <= k < |rest|
        ensures s[0].id < rest[k].id
      {
        assert rest[k] in s[1..];
      }
    }
  }

  /** At most one published package per branch. */
  predicate OnePublishedPerBranch(rows: seq<Record>) {
    forall x, y :: x in rows && y in rows && x.published && y.published && x.branch == y.branch ==> x == y
  }

  /** String properties default to a maximum length of 50, which saving and
      updating a row validate. */
  predicate Fits(field: Option<string>) {
    field.None? || |field.value| <= 50
  }

  /** What the routes keep true of the table: ids are ascending and below
      the next id, every row passed validation, and each branch has at most
      one published package. */
  ghost predicate TableOk(t: Table) {
    && Ascending(t.rows)
    && (forall x :: x in t.rows ==> x.id < t.nextId && Fits(x.version) && Fits(x.zipFile))
    && OnePublishedPerBranch(t.rows)
  }

  // ---------------------------------------------------------------------
  // Queries

  function Head(s: seq<Record>): Option<Record> {
    if s == [] then None else Some(s[0])
  }

  function Reversed(s: seq<Record>): (r: seq<Record>)
    ensures |r| == |s|
  {
    if s == [] then [] else Reversed(s[1..]) + [s[0]]
  }

  lemma {:induction false} ReversedAt(s: seq<Record>)
    ensures forall k :: 0 <= k < |s| ==> Reversed(s)[k] == s[|s| - 1 - k]
  {
    if s != [] {
      ReversedAt(s[1..]);
    }
  }

  function IsOf(b: Branch): Record -> bool {
    (x: Record) => x.branch == b
  }

  /** `Package.all(:branch => b)`. */
  function OfBranch(rows: seq<Record>, b: Branch): seq<Record> {
    Filter(rows, IsOf(b))
  }

  /** The lists and heads `get "/"` hands to its template. */
  datatype Listing = Listing(devs: seq<Record>, masters: seq<Record>,
                             lastDev: Option<Record>, lastMaster: Option<Record>)

  /** `get "/"`, once `protected!` has let the request through. */
  function Home(rows: seq<Record>): Listing {
    var devs := Reversed(OfBranch(rows, Dev));
    var masters := Reversed(OfBranch(rows, Master));
    Listing(devs, masters, Head(devs), Head(masters))
  }

  /** The head of a branch's reversed list is its newest package: the row of
      that branch with the largest id, and there is none only when the
      branch has no package. */
  lemma {:induction false} LastIsNewest(rows: seq<Record>, b: Branch)
    requires Ascending(rows)
    ensures var last := if b == Dev then Home(rows).lastDev else Home(rows).lastMaster;
      && (last.None? <==> forall x :: x in rows ==> x.branch != b)
      && (last.Some? ==> last.value in rows && last.value.branch == b
                         && forall x :: x in rows && x.branch == b ==> x.id <= last.value.id)
  {
    var s := OfBranch(rows, b);
    FilterMembers(rows, IsOf(b));
    FilterAscending(rows, IsOf(b));
    ReversedAt(s);
    if s != [] {
      var newest := s[|s| - 1];
      assert newest in s;
      forall x | x in rows && x.branch == b
        ensures x.id <= newest.id
      {
        assert x in s;
        var k :| 0 <= k < |s| && s[k] == x;
      }
    } else {
      forall x | x in rows
        ensures x.branch != b
      {
        assert x !in s;
      }
    }
  }

  /** The lists of `get "/"` hold exactly the branch's packages, newest
      first: position `k` is the `k`-th row of the branch from the end. */
  lemma HomeLists(rows: seq<Record>)
    ensures var h := Home(rows);
      && (forall x :: x in h.devs <==> x in rows && x.branch == Dev)
      && (forall x :: x in h.masters <==> x in rows && x.branch == Master)
    ensures var h := Home(rows); var d := OfBranch(rows, Dev);
      forall k :: 0 <= k < |d| ==> h.devs[k] == d[|d| - 1 - k]
    ensures var h := Home(rows); var m := OfBranch(rows, Master);
      forall k :: 0 <= k < |m| ==> h.masters[k] == m[|m| - 1 - k]
  {
    var d := OfBranch(rows, Dev);
    var m := OfBranch(rows, Master);
    FilterMembers(rows, IsOf(Dev));
    FilterMembers(rows, IsOf(Master));
    ReversedAt(d);
    ReversedAt(m);
    forall x
      ensures x in Reversed(d) <==> x in d
    {
      if x in d {
        var k :| 0 <= k < |d| && d[k] == x;
        assert Reversed(d)[|d| - 1 - k] == x;
      }
    }
    forall x
      ensures x in Reversed(m) <==> x in m
    {
      if x in m {
        var k :| 0 <= k < |m| && m[k] == x;
        assert Reversed(m)[|m| - 1 - k] == x;
      }
    }
  }

  function IsPublishedOf(b: Branch): Record -> bool {
    (x: Record) => x.published && x.branch == b
  }

  /** `Package.first(:branch => b, :published => true)`. */
  function FirstPublished(rows: seq<Record>, b: Branch): Option<Record> {
    Head(Filter(rows, IsPublishedOf(b)))
  }

  /** With at most one published package per branch, the first published
      package is THE published package: the query finds a row exactly when
      it is published and of that branch. */
  lemma FirstPublishedIsTheOne(rows: seq<Record>, b: Branch, x: Record)
    requires OnePublishedPerBranch(rows)
    ensures FirstPublished(rows, b) == Some(x) <==> x in rows && x.published && x.branch == b
  {
    var s := Filter(rows, IsPublishedOf(b));
    FilterMembers(rows, IsPublishedOf(b));
    if s != [] {
      assert s[0] in s;
    }
  }

  /** Without a published package of the branch the query finds nothing. */
  lemma FirstPublishedNone(rows: seq<Record>, b: Branch)
    ensures FirstPublished(rows, b).None? <==> forall x :: x in rows ==> !(x.published && x.branch == b)
  {
    var s := Filter(rows, IsPublishedOf(b));
    FilterMembers(rows, IsPublishedOf(b));
    if s != [] {
      assert s[0] in s;
    }
  }

  /** `get "/release/check"`: the published package's version interpolated
      into a string (nil gives ""), or no body when there is none. */
  function ReleaseCheck(rows: seq<Record>, b: Branch): Option<string> {
    match FirstPublished(rows, b)
    case None => None
    case Some(p) => Some(if p.version.Some? then p.version.value else "")
  }

  /** `get "/release/zip"`: the file `send_file` serves and the file name it
      offers, for the published package. */
  function ReleaseZip(pwd: string, rows: seq<Record>, b: Branch): Option<(string, Option<string>)> {
    match FirstPublished(rows, b)
    case None => None
    case Some(p) => Some((pwd + "/public/" + Packaging.Url(p.zipFile), p.zipFile))
  }

  /** Both release routes answer from the same package: the zip route serves
      a file exactly when the check route reports a version, and the file
      is the archive `zip -r` wrote under the package's archive name. */
  lemma ReleaseRoutesAgree(pwd: string, rows: seq<Record>, b: Branch)
    ensures ReleaseZip(pwd, rows, b).Some? <==> ReleaseCheck(rows, b).Some?
    ensures var p := FirstPublished(rows, b);
      p.Some? && p.value.zipFile.Some? ==>
        ReleaseZip(pwd, rows, b) == Some((PackagesPath(pwd) + "/" + p.value.zipFile.value, p.value.zipFile))
  {
    var p := FirstPublished(rows, b);
    if p.Some? && p.value.zipFile.Some? {
      Packaging.UrlLocatesArchive(pwd, p.value.zipFile.value);
    }
  }

  // ---------------------------------------------------------------------
  // Transitions

  /** How a route ended: `protected!` halted with 401, `pack` threw
      `:halt`, an exception escaped, or the route redirected to "/" with or
      without an error flash. */
  datatype Reply = Unauthorized | Halted | Crashed | Redirected(flashed: bool)

  function IsKeptFrom(b: Branch): Record -> bool {
    (x: Record) => x.published || x.branch != b
  }

  /** `Package.all(:published => false, :branch => b).destroy`. */
  function WithoutUnpublished(rows: seq<Record>, b: Branch): seq<Record> {
    Filter(rows, IsKeptFrom(b))
  }

  /** The end of `post "/package"`, once `pack` has ended with `result`
      and set `version` and `zipFile`: `stored` is whether the database
      stores the row. A row is saved only when `pack` returned and the row
      passes validation; it gets the next id and is not published. */
  function SaveRoute(t: Table, branch: Branch, result: Packaging.PackResult, version: Option<string>,
                     zipFile: Option<string>, stored: bool): (Table, Reply) {
    match result
    case Halted => (t, Halted)
    case Failed(_) => (t, Crashed)
    case Packed(_) =>
      if stored && Fits(version) && Fits(zipFile) then
        (Table(t.rows + [Record(t.nextId, branch, version, false, zipFile)], t.nextId + 1), Redirected(false))
      else (t, Redirected(true))
  }

  /** `post "/package"` for `branch`, given whether the request is
      authorized, what `pack` did (`build`) and whether the database stores
      the row (`stored`). */
  function CreateRoute(t: Table, authorized: bool, branch: Branch, build: Packaging.Build, stored: bool): (Table, Reply) {
    if !authorized then (t, Unauthorized)
    else SaveRoute(t.(rows := WithoutUnpublished(t.rows, branch)), branch, build.result, build.version, build.zipFile, stored)
  }

  /** Creating a package destroys exactly the unpublished packages of its
      branch: every published package and every package of the other branch
      survives, and the only row added is the new, unpublished package,
      saved exactly when `pack` returned, the row validates and the
      database stores it. */
  lemma CreateDestroysUnpublished(t: Table, branch: Branch, build: Packaging.Build, stored: bool)
    ensures var (u, reply) := CreateRoute(t, true, branch, build, stored);
      forall x :: x in u.rows <==>
        || (x in t.rows && (x.published || x.branch != branch))
        || (reply == Redirected(false) && x == Record(t.nextId, branch, build.version, false, build.zipFile))
    ensures var (u, reply) := CreateRoute(t, true, branch, build, stored);
      reply == Redirected(false) <==> build.result.Packed? && stored && Fits(build.version) && Fits(build.zipFile)
  {
    FilterMembers(t.rows, IsKeptFrom(branch));
  }

  /** A row whose id is above every id keeps the rows in order when
      appended. */
  lemma AppendKeepsAscending(s: seq<Record>, r: Record)
    requires Ascending(s) && forall x :: x in s ==> x.id < r.id
    ensures Ascending(s + [r])
  {
    forall i, j | 0 <= i < j < |s| + 1
      ensures (s + [r])[i].id < (s + [r])[j].id
    {
      if j == |s| {
        assert s[i] in s;
      }
    }
  }

  /** `post "/package"` keeps the table's invariant. */
  lemma CreateKeepsTableOk(t: Table, authorized: bool, branch: Branch, build: Packaging.Build, stored: bool)
    requires TableOk(t)
    ensures TableOk(CreateRoute(t, authorized, branch, build, stored).0)
  {
    if authorized {
      var kept := WithoutUnpublished(t.rows, branch);
      FilterMembers(t.rows, IsKeptFrom(branch));
      FilterAscending(t.rows, IsKeptFrom(branch));
      var u := CreateRoute(t, authorized, branch, build, stored).0;
      if u.nextId == t.nextId {
        assert u.rows == kept;
      } else {
        var r := Record(t.nextId, branch, build.version, false, build.zipFile);
        assert u.rows == kept + [r];
        AppendKeepsAscending(kept, r);
        forall x | x in u.rows
          ensures x in kept || x == r
        {
        }
      }
    }
  }

  /** `Package.get(id)`: the position of the row with that id. */
  function IndexOf(rows: seq<Record>, id: nat): (r: Option<nat>)
    ensures r.Some? ==> r.value < |rows| && rows[r.value].id == id
    ensures r.None? ==> forall x :: x in rows ==> x.id != id
  {
    if rows == [] then None
    else if rows[0].id == id then Some(0)
    else match IndexOf(rows[1..], id)
      case None => None
      case Some(k) => Some(k + 1)
  }

  /** `previous_public.update(:published => false)` for branch `b`. */
  function Unpublish(rows: seq<Record>, b: Branch): (r: seq<Record>)
    ensures |r| == |rows|
  {
    seq(|rows|, k requires 0 <= k < |rows| => if rows[k].branch == b then rows[k].(published := false) else rows[k])
  }

  /** `post "/publish"` for `id`, once `protected!` has let the request
      through, `updated` saying whether the database stores the target's
      update. No row with that id: `package.branch` raises on nil before
      anything changes. Otherwise the branch's published packages are
      unpublished, then the target is published if its update is stored.
      The reset is not rolled back when the update fails. */
  function PublishRoute(t: Table, authorized: bool, id: nat, updated: bool): (Table, Reply) {
    if !authorized then (t, Unauthorized)
    else match IndexOf(t.rows, id)
      case None => (t, Crashed)
      case Some(k) =>
        var u := Unpublish(t.rows, t.rows[k].branch);
        var ok := updated && Fits(t.rows[k].version) && Fits(t.rows[k].zipFile);
        (t.(rows := if ok then u[k := u[k].(published := true)] else u), Redirected(!ok))
  }

  /** The request publishes the package that is already its branch's
      published package. */
  predicate Republishes(t: Table, authorized: bool, id: nat) {
    var k := IndexOf(t.rows, id);
    authorized && k.Some? && t.rows[k.value].published
  }

  /** `post "/publish"` as written, when the target is already published:
      `package` was loaded before the reset, so its in-memory `published`
      is still true, `update(:published => true)` finds nothing changed,
      writes nothing and succeeds, and the reset stands. */
  function PublishRouteAsWritten(t: Table, authorized: bool, id: nat, updated: bool): (Table, Reply) {
    if Republishes(t, authorized, id) then
      (t.(rows := Unpublish(t.rows, t.rows[IndexOf(t.rows, id).value].branch)), Redirected(false))
    else PublishRoute(t, authorized, id, updated)
  }

  /** The table the route as written leaves is the one the corrected route
      leaves when the target's update is not stored. */
  lemma AsWrittenTable(t: Table, authorized: bool, id: nat, updated: bool)
    ensures PublishRouteAsWritten(t, authorized, id, updated).0 ==
      PublishRoute(t, authorized, id, updated && !Republishes(t, authorized, id)).0
  {
  }

  /** As written, republishing the published package of a branch reports
      success and leaves the branch with no published package, so the
      release routes answer nothing for it. */
  lemma RepublishUnpublishes(t: Table, id: nat, updated: bool)
    requires IndexOf(t.rows, id).Some? && t.rows[IndexOf(t.rows, id).value].published
    ensures var b := t.rows[IndexOf(t.rows, id).value].branch;
      var (u, reply) := PublishRouteAsWritten(t, true, id, updated);
      && reply == Redirected(false)
      && (forall x :: x in u.rows ==> !(x.published && x.branch == b))
      && ReleaseCheck(u.rows, b).None?
  {
    var b := t.rows[IndexOf(t.rows, id).value].branch;
    var u := PublishRouteAsWritten(t, true, id, updated).0;
    forall x | x in u.rows
      ensures !(x.published && x.branch == b)
    {
      var j :| 0 <= j < |u.rows| && u.rows[j] == x;
    }
    FirstPublishedNone(u.rows, b);
  }

  /** The smallest case: one published dev package, published again. */
  lemma RepublishExample()
    ensures var p := Record(1, Dev, Some("1.0"), true, Some("dev_1.0_0123456789.zip"));
      var (u, reply) := PublishRouteAsWritten(Table([p], 2), true, 1, true);
      && reply == Redirected(false) && u.rows == [p.(published := false)]
      && ReleaseCheck(u.rows, Dev) == None
      && ReleaseCheck(PublishRoute(Table([p], 2), true, 1, true).0.rows, Dev) == Some("1.0")
  {
    var p := Record(1, Dev, Some("1.0"), true, Some("dev_1.0_0123456789.zip"));
    var t := Table([p], 2);
    assert IndexOf(t.rows, 1) == Some(0);
    RepublishUnpublishes(t, 1, true);
    assert TableOk(t);
    PublishThenCheck(t, 1);
  }

  /** `u` differs from `t` at most in the `published` field of rows of the
      branch of the row with id `id`; with no such row it is `t`. */
  ghost predicate OnlyPublishedChanged(t: Table, u: Table, id: nat) {
    && u.nextId == t.nextId && |u.rows| == |t.rows|
    && (forall k :: 0 <= k < |t.rows| ==> u.rows[k] == t.rows[k].(published := u.rows[k].published))
    && match IndexOf(t.rows, id)
       case None => u == t
       case Some(k) => forall j :: 0 <= j < |t.rows| && t.rows[j].branch != t.rows[k].branch ==> u.rows[j] == t.rows[j]
  }

  /** Publishing, as written and as corrected, changes no field but
      `published` and no row of the other branch; an unauthorized request
      or a missing id changes nothing. */
  lemma PublishTouchesOnlyPublished(t: Table, authorized: bool, id: nat, updated: bool)
    ensures var (u, reply) := PublishRouteAsWritten(t, authorized, id, updated);
      OnlyPublishedChanged(t, u, id) && (reply == Crashed || reply == Unauthorized ==> u == t)
    ensures var (u, reply) := PublishRoute(t, authorized, id, updated);
      OnlyPublishedChanged(t, u, id) && (reply == Crashed || reply == Unauthorized ==> u == t)
  {
    AsWrittenTable(t, authorized, id, updated);
    forall upd: bool
      ensures OnlyPublishedChanged(t, PublishRoute(t, authorized, id, upd).0, id)
    {
    }
  }

  /** On the corrected route: after a publish of an existing package whose
      update is stored, that package is the published package of its
      branch; when the update fails after the reset, the branch has no
      published package at all. */
  lemma IntendedPublishOutcome(t: Table, id: nat, updated: bool)
    requires TableOk(t) && IndexOf(t.rows, id).Some?
    ensures var k := IndexOf(t.rows, id).value; var target := t.rows[k];
      var (u, reply) := PublishRoute(t, true, id, updated);
      && (reply == Redirected(false) <==> updated)
      && (updated ==> forall x :: x in u.rows && x.published && x.branch == target.branch ==> x == target.(published := true))
      && (updated ==> target.(published := true) in u.rows)
      && (!updated ==> forall x :: x in u.rows ==> !(x.published && x.branch == target.branch))
      && (forall x :: x in u.rows && x.branch != target.branch ==> x in t.rows)
  {
    var k := IndexOf(t.rows, id).value;
    var target := t.rows[k];
    var b := target.branch;
    var v := Unpublish(t.rows, b);
    var u := PublishRoute(t, true, id, updated).0;
    assert target in t.rows;
    if updated {
      assert u.rows == v[k := target.(published := true)];
      forall x | x in u.rows && x.published && x.branch == b
        ensures x == target.(published := true)
      {
        var j :| 0 <= j < |u.rows| && u.rows[j] == x;
        assert j == k;
      }
      assert u.rows[k] == target.(published := true);
    } else {
      forall x | x in u.rows
        ensures !(x.published && x.branch == b)
      {
        var j :| 0 <= j < |u.rows| && u.rows[j] == x;
      }
    }
    forall x | x in u.rows && x.branch != b
      ensures x in t.rows
    {
      var j :| 0 <= j < |u.rows| && u.rows[j] == x;
      assert x == t.rows[j];
    }
  }

  /** `post "/publish"` as written, for an existing package: publishing a
      package that is not yet published, with its update stored, makes it
      its branch's only published package; a failed update, or publishing
      the package that is already published, leaves the branch with none.
      Rows of the other branch stay as they were. */
  lemma PublishOutcome(t: Table, id: nat, updated: bool)
    requires TableOk(t) && IndexOf(t.rows, id).Some?
    ensures var k := IndexOf(t.rows, id).value; var target := t.rows[k];
      var (u, reply) := PublishRouteAsWritten(t, true, id, updated);
      && (reply == Redirected(false) <==> updated || target.published)
      && (updated && !target.published ==>
            && target.(published := true) in u.rows
            && forall x :: x in u.rows && x.published && x.branch == target.branch ==> x == target.(published := true))
      && (!updated || target.published ==> forall x :: x in u.rows ==> !(x.published && x.branch == target.branch))
      && (forall x :: x in u.rows && x.branch != target.branch ==> x in t.rows)
  {
    var target := t.rows[IndexOf(t.rows, id).value];
    AsWrittenTable(t, true, id, updated);
    if target.published {
      IntendedPublishOutcome(t, id, false);
    } else {
      IntendedPublishOutcome(t, id, updated);
    }
  }

  /** After a stored publish, `get "/release/check"` of the target's branch
      reports the target's version. */
  lemma PublishThenCheck(t: Table, id: nat)
    requires TableOk(t) && IndexOf(t.rows, id).Some?
    ensures var target := t.rows[IndexOf(t.rows, id).value];
      ReleaseCheck(PublishRoute(t, true, id, true).0.rows, target.branch) ==
        Some(if target.version.Some? then target.version.value else "")
  {
    var target := t.rows[IndexOf(t.rows, id).value];
    var u := PublishRoute(t, true, id, true).0;
    IntendedPublishOutcome(t, id, true);
    PublishKeepsTableOk(t, true, id, true);
    FirstPublishedIsTheOne(u.rows, target.branch, target.(published := true));
  }

  /** The rows of `u` are in id order, below the next id, and valid. */
  ghost predicate RowsValid(u: Table) {
    && Ascending(u.rows)
    && forall x :: x in u.rows ==> x.id < u.nextId && Fits(x.version) && Fits(x.zipFile)
  }

  /** Publishing, as written and as corrected, keeps the ids in order and
      every row valid. */
  lemma PublishKeepsRowsValid(t: Table, authorized: bool, id: nat, updated: bool)
    requires TableOk(t)
    ensures RowsValid(PublishRouteAsWritten(t, authorized, id, updated).0)
    ensures RowsValid(PublishRoute(t, authorized, id, updated).0)
  {
    AsWrittenTable(t, authorized, id, updated);
    forall upd: bool
      ensures RowsValid(PublishRoute(t, authorized, id, upd).0)
    {
      var u := PublishRoute(t, authorized, id, upd).0;
      PublishTouchesOnlyPublished(t, authorized, id, upd);
      forall x | x in u.rows
        ensures x.id < u.nextId && Fits(x.version) && Fits(x.zipFile)
      {
        var j :| 0 <= j < |u.rows| && u.rows[j] == x;
        assert t.rows[j] in t.rows;
      }
    }
  }

  /** Publishing, as written and as corrected, leaves each branch with at
      most one published package. */
  lemma PublishKeepsOnePublished(t: Table, authorized: bool, id: nat, updated: bool)
    requires TableOk(t)
    ensures OnePublishedPerBranch(PublishRouteAsWritten(t, authorized, id, updated).0.rows)
    ensures OnePublishedPerBranch(PublishRoute(t, authorized, id, updated).0.rows)
  {
    AsWrittenTable(t, authorized, id, updated);
    forall upd: bool
      ensures OnePublishedPerBranch(PublishRoute(t, authorized, id, upd).0.rows)
    {
      if authorized && IndexOf(t.rows, id).Some? {
        IntendedPublishOutcome(t, id, upd);
      }
    }
  }

  /** `post "/publish"`, as written and as corrected, keeps the table's
      invariant. */
  lemma PublishKeepsTableOk(t: Table, authorized: bool, id: nat, updated: bool)
    requires TableOk(t)
    ensures TableOk(PublishRouteAsWritten(t, authorized, id, updated).0)
    ensures TableOk(PublishRoute(t, authorized, id, updated).0)
  {
    PublishKeepsRowsValid(t, authorized, id, updated);
    PublishKeepsOnePublished(t, authorized, id, updated);
  }

  /** The table, as the application's database holds it. */
  class PackageTable {
    var rows: seq<Record>
    var nextId: nat

    function State(): Table
      reads this
    {
      Table(rows, nextId)
    }

    /** The empty table; serial ids start at 1. */
    constructor ()
      ensures rows == [] && nextId == 1 && TableOk(State())
    {
      rows := [];
      nextId := 1;
    }

    /** `post "/package"`: the package is built by `Package#pack` from the
        answers `b`, with `randomId`, `pwd` and the directories `dirs` of
        the new working copy; `stored` is whether the database stores the
        row once it validates. */
    method CreatePackage(request: AuthRequest, env: Env, branch: Branch,
                         randomId: string, pwd: string, dirs: Dirs, b: Packaging.BuildTools, stored: bool)
      returns (reply: Reply)
      requires IsRandomId(randomId) && dirs.Separate()
      modifies this, dirs.js, dirs.css, dirs.languages, dirs.staging, dirs.packages
      ensures var build := Packaging.PackRun(branch, None, None, randomId, old(dirs.State()), b);
        && (State(), reply) == CreateRoute(old(State()), Authorized(request, env), branch, build, stored)
        && dirs.State() == if Authorized(request, env) then build.tree else old(dirs.State())
    {
      if !Authorized(request, env) {
        return Unauthorized;                              // protected!
      }
      rows := WithoutUnpublished(rows, branch);           // not_public.destroy
      var package := new Packaging.Package(branch);
      var result, _ := package.Pack(randomId, pwd, dirs, b);
      reply := Save(branch, result, package.version, package.zipFile, stored);
    }

    /** The end of `post "/package"`: `package.save` once `pack` has ended. */
    method Save(branch: Branch, result: Packaging.PackResult, version: Option<string>, zipFile: Option<string>,
                stored: bool) returns (reply: Reply)
      modifies this
      ensures (State(), reply) == SaveRoute(old(State()), branch, result, version, zipFile, stored)
    {
      match result
      case Halted =>
        reply := Halted;                                  // throw :halt
      case Failed(_) =>
        reply := Crashed;                                 // the exception escapes
      case Packed(_) =>
        if stored && Fits(version) && Fits(zipFile) {     // package.save
          rows := rows + [Record(nextId, branch, version, false, zipFile)];
          nextId := nextId + 1;
          reply := Redirected(false);
        } else {
          reply := Redirected(true);
        }
    }

    /** `post "/publish"`, as written, for the row with id `id`; `updated`
        is whether the database stores the target's update. */
    method Publish(request: AuthRequest, env: Env, id: nat, updated: bool) returns (reply: Reply)
      modifies this
      ensures (State(), reply) == PublishRouteAsWritten(old(State()), Authorized(request, env), id, updated)
    {
      if !Authorized(request, env) {
        return Unauthorized;                              // protected!
      }
      var k := IndexOf(rows, id);                         // Package.get
      if k.None? {
        return Crashed;                                   // nil.branch raises
      }
      var target := rows[k.value];
      rows := Unpublish(rows, target.branch);             // previous_public.update
      if target.published {
        reply := Redirected(false);                       // package.update: nothing changed
      } else if updated && Fits(target.version) && Fits(target.zipFile) {  // package.update
        rows := rows[k.value := rows[k.value].(published := true)];
        reply := Redirected(false);
      } else {
        reply := Redirected(true);
      }
    }
  }
}
