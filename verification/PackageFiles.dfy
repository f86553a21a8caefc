/** Package records and the files they point to in the artifact store: creating, moving out of staging,
    and deleting without breaking a record that remains. */
module PackageFiles {
  import opened Results
  import opened Sets

  // ---- POSIX paths ----

  /** The length of the path up to and including its last slash. */
  function LastSlash(path: string): (k: nat)
    ensures k <= |path|
    ensures k > 0 ==> path[k - 1] == '/'
    ensures '/' !in path[k..]
  {
    if path == "" || path[|path| - 1] == '/' then |path| else LastSlash(path[..|path| - 1])
  }

  function BaseName(path: string): string {
    path[LastSlash(path)..]
  }

  function TrimSlashes(s: string): string {
    if s != "" && s[|s| - 1] == '/' then TrimSlashes(s[..|s| - 1]) else s
  }

  function DirName(path: string): string {
    var head := path[..LastSlash(path)];
    if TrimSlashes(head) == "" then head else TrimSlashes(head)
  }

  function Join(dir: string, name: string): string {
    if name != "" && name[0] == '/' then name
    else if dir == "" || dir[|dir| - 1] == '/' then dir + name
    else dir + "/" + name
  }

  function SplitSlash(s: string): (ss: seq<string>)
    ensures |ss| >= 1
  {
    if s == "" then [""]
    else if s[0] == '/' then [""] + SplitSlash(s[1..])
    else
      var rest := SplitSlash(s[1..]);
      [[s[0]] + rest[0]] + rest[1..]
  }

  predicate WellFormedPath(path: string) {
    var ss := SplitSlash(path);
    (exists s | s in ss :: s != "") && "." !in ss && ".." !in ss
  }

  // ---- the formal path ----

  datatype Distribution = Distribution(name: string, engine: string, dbType: string, pkgType: string)

  datatype DbVersion = DbVersion(id: nat, fullVersion: string, distribution: Option<Distribution>)

  datatype PackageData = PackageData(
    name: string,
    version: string,
    dbVersion: Option<DbVersion>,
    pkgType: string,
    dbType: string,
    path: string)

  predicate GoodSegment(s: string) {
    s != "" && '/' !in s && s != "." && s != ".."
  }

  function JoinSegments(ss: seq<string>): string {
    if ss == [] then "" else "/" + ss[0] + JoinSegments(ss[1..])
  }

  function BuildFormalPath(v: DbVersion, dbType: string, pkgType: string, fileName: string): Result<string> {
    if v.distribution.None? || v.distribution.value.dbType != dbType || v.distribution.value.pkgType != pkgType
    then Err("package type and distribution differ")
    else
      var segments := [dbType, pkgType, v.distribution.value.name, v.fullVersion, fileName];
      if exists s | s in segments :: !GoodSegment(s) then Err("illegal path segment")
      else Ok(JoinSegments(segments))
  }

  // ---- moving out of staging ----

  const STAGING := "/staging/"

  predicate IsStagingPath(path: string) {
    STAGING <= path && path != STAGING
  }

  /** The stored files: the bytes under each path. */
  type Files = map<string, string>

  /** The store after moving a staging file to its formal path, replacing what is there, and the path to
      record. */
  function MoveStagingFileToFormal(files: Files, staging: string, formal: string): Result<(Files, string)>
  {
    if !IsStagingPath(staging) then Ok((files, staging))
    else if !WellFormedPath(staging) || !WellFormedPath(formal) then Err("illegal path")
    else if IsStagingPath(formal) || BaseName(staging) != BaseName(formal) then Err("paths do not match")
    else if staging !in files then
      if formal in files then Ok((files, formal)) else Err("staging file is gone")
    else
      var moved := Join(DirName(formal), BaseName(TrimSlashes(staging)));
      Ok(((files - {staging})[moved := files[staging]], moved))
  }

  function MovePackageToFormal(files: Files, data: PackageData): Result<(Files, string)> {
    if !IsStagingPath(data.path) then Ok((files, data.path))
    else if data.dbVersion.None? then Err("no version")
    else
      match BuildFormalPath(data.dbVersion.value, data.dbType, data.pkgType, BaseName(data.path))
      case Err(e) => Err(e)
      case Ok(formal) => MoveStagingFileToFormal(files, data.path, formal)
  }

  // ---- records and requests ----

  /** What update_or_create looks a record up by. */
  datatype Key = Key(name: string, version: string, versionId: Option<nat>, pkgType: string, dbType: string)

  function KeyOf(d: PackageData): Key {
    Key(d.name, d.version, if d.dbVersion.None? then None else Some(d.dbVersion.value.id), d.pkgType, d.dbType)
  }

  /** Each record's path, and the stored files. */
  datatype Store = Store(records: map<Key, string>, files: Files)

  /** Records that instances were installed from, and deletions that the artifact store fails. */
  datatype World = World(inUse: set<Key>, fails: string -> bool)

  datatype Request =
    | Create(data: PackageData)
    | BulkCreate(packages: seq<PackageData>)
    | Destroy(key: Key)
    | BulkDestroy(keys: set<Key>)

  function AfterCreate(st: Store, d: PackageData): (Store, bool) {
    match MovePackageToFormal(st.files, d)
    case Err(_) => (st, false)
    case Ok((files, path)) => (Store(st.records[KeyOf(d) := path], files), true)
  }

  /** The packages in turn, up to the first that fails. */
  function CreateEach(st: Store, ds: seq<PackageData>): (Store, bool)
    decreases |ds|
  {
    if ds == [] then (st, true)
    else
      var (before, ok) := CreateEach(st, ds[..|ds| - 1]);
      if ok then AfterCreate(before, ds[|ds| - 1]) else (before, false)
  }

  /** A failure rolls the records back, but not the files already moved. */
  function AfterBulkCreate(st: Store, ds: seq<PackageData>): (Store, bool) {
    var (end, ok) := CreateEach(st, ds);
    if ok then (end, true) else (end.(records := st.records), false)
  }

  function Clean(st: Store, paths: set<string>, w: World): Store {
    st.(files := st.files - set p | p in paths && p != "" && p !in st.records.Values && !w.fails(p))
  }

  function AfterBulkDestroy(st: Store, keys: set<Key>, w: World): (Store, bool) {
    if exists k | k in keys :: k in w.inUse then (st, false)
    else
      var paths := set k | k in keys && k in st.records :: st.records[k];
      (Clean(st.(records := st.records - keys), paths, w), true)
  }

  function AfterDestroy(st: Store, key: Key, w: World): (Store, bool) {
    if key !in st.records || key in w.inUse then (st, false)
    else (Clean(st.(records := st.records - {key}), {st.records[key]}, w), true)
  }

  function Handle(st: Store, r: Request, w: World): (Store, bool) {
    match r
    case Create(d) => AfterCreate(st, d)
    case BulkCreate(ds) => AfterBulkCreate(st, ds)
    case Destroy(k) => AfterDestroy(st, k, w)
    case BulkDestroy(ks) => AfterBulkDestroy(st, ks, w)
  }

  // ---- formal paths ----

  lemma {:induction false} LastSlashIs(path: string, k: nat)
    requires k <= |path| && '/' !in path[k..] && (k == 0 || path[k - 1] == '/')
    ensures LastSlash(path) == k
  {
    if k < |path| {
      assert path[|path| - 1] == path[k..][|path| - 1 - k];
      assert path[..|path| - 1][k..] == path[k..|path| - 1];
      LastSlashIs(path[..|path| - 1], k);
    }
  }

  /** Moving to a path whose last two names are proper puts the file at that very path. */
  lemma MovedIsFormal(head: string, name: string, staging: string)
    requires head != "" && head[|head| - 1] != '/' && GoodSegment(name)
    requires BaseName(staging) == name
    ensures var formal := head + "/" + name;
            Join(DirName(formal), BaseName(TrimSlashes(staging))) == formal && BaseName(formal) == name
  {
    var formal := head + "/" + name;
    assert formal[|head| + 1..] == name;
    LastSlashIs(formal, |head| + 1);
    assert formal[..|head| + 1] == head + "/";
    assert (head + "/")[..|head|] == head;
    assert TrimSlashes(head) == head && TrimSlashes(head + "/") == head;
    assert DirName(formal) == head;
    assert staging[|staging| - 1] == name[|name| - 1];
    assert name[0] != '/' && name[|name| - 1] != '/' by {
      assert name[0] in name && name[|name| - 1] in name;
    }
    assert TrimSlashes(staging) == staging;
  }

  lemma {:induction false} JoinLast(ss: seq<string>, last: string)
    ensures JoinSegments(ss + [last]) == JoinSegments(ss) + "/" + last
  {
    if ss == [] {
      assert [last][1..] == [];
    } else {
      JoinLast(ss[1..], last);
      assert (ss + [last])[1..] == ss[1..] + [last];
    }
  }

  /** A built path ends in the file name, below a directory. */
  lemma FormalShape(v: DbVersion, dbType: string, pkgType: string, fileName: string) returns (head: string)
    requires BuildFormalPath(v, dbType, pkgType, fileName).Ok?
    ensures GoodSegment(fileName) && head != "" && head[|head| - 1] != '/'
    ensures BuildFormalPath(v, dbType, pkgType, fileName).value == head + "/" + fileName
  {
    var three := [dbType, pkgType, v.distribution.value.name];
    var segments := [dbType, pkgType, v.distribution.value.name, v.fullVersion, fileName];
    assert segments[3] in segments && segments[4] in segments;
    assert segments == three + [v.fullVersion] + [fileName];
    head := JoinSegments(three + [v.fullVersion]);
    JoinLast(three + [v.fullVersion], fileName);
    JoinLast(three, v.fullVersion);
    assert v.fullVersion[|v.fullVersion| - 1] in v.fullVersion;
    assert head[|head| - 1] == v.fullVersion[|v.fullVersion| - 1];
  }

  lemma SameFirstSegment(a: string, b: string, x: string, y: string)
    requires '/' !in a && '/' !in b && a + x == b + y
    requires (x == "" || x[0] == '/') && (y == "" || y[0] == '/')
    ensures a == b && x == y
  {
    var s := a + x;
    assert |a| == |s| || s[|a|] == '/';
    assert |b| == |s| || s[|b|] == '/';
    assert forall i :: 0 <= i < |a| ==> s[i] == a[i] && a[i] in a;
    assert forall i :: 0 <= i < |b| ==> s[i] == b[i] && b[i] in b;
    assert |a| == |b|;
    assert s[..|a|] == a && s[..|b|] == b && s[|a|..] == x && s[|b|..] == y;
  }

  /** Paths are injective in their segments, however many. */
  lemma {:induction false} JoinInjective(a: seq<string>, b: seq<string>)
    requires forall s :: s in a || s in b ==> GoodSegment(s)
    requires JoinSegments(a) == JoinSegments(b)
    ensures a == b
  {
    if a != [] && b != [] {
      var x, y := JoinSegments(a[1..]), JoinSegments(b[1..]);
      assert a[0] in a && b[0] in b;
      assert ("/" + a[0] + x)[1..] == a[0] + x && ("/" + b[0] + y)[1..] == b[0] + y;
      SameFirstSegment(a[0], b[0], x, y);
      JoinInjective(a[1..], b[1..]);
      assert a == [a[0]] + a[1..] && b == [b[0]] + b[1..];
    }
  }

  /** Two packages get the same formal path exactly when the five segments agree. The distribution's engine
      is not among them. */
  lemma FormalPathExactly(v: DbVersion, w: DbVersion, dbV: string, dbW: string, pkgV: string, pkgW: string,
                          fileV: string, fileW: string)
    requires BuildFormalPath(v, dbV, pkgV, fileV).Ok? && BuildFormalPath(w, dbW, pkgW, fileW).Ok?
    ensures BuildFormalPath(v, dbV, pkgV, fileV) == BuildFormalPath(w, dbW, pkgW, fileW) <==>
              && dbV == dbW && pkgV == pkgW && fileV == fileW && v.fullVersion == w.fullVersion
              && v.distribution.value.name == w.distribution.value.name
  {
    var a := [dbV, pkgV, v.distribution.value.name, v.fullVersion, fileV];
    var b := [dbW, pkgW, w.distribution.value.name, w.fullVersion, fileW];
    if JoinSegments(a) == JoinSegments(b) {
      JoinInjective(a, b);
      assert a[0] == b[0] && a[1] == b[1] && a[2] == b[2] && a[3] == b[3] && a[4] == b[4];
    }
  }

  lemma {:induction false} SplitSlashStep(first: string, rest: string)
    requires '/' !in first
    ensures SplitSlash(first + "/" + rest) == [first] + SplitSlash(rest)
  {
    if first == "" {
      assert (first + "/" + rest)[1..] == rest;
    } else {
      SplitSlashStep(first[1..], rest);
      var after := [first[1..]] + SplitSlash(rest);
      assert first[0] in first && (first + "/" + rest)[1..] == first[1..] + "/" + rest;
      assert [first[0]] + first[1..] == first && after[1..] == SplitSlash(rest);
    }
  }

  lemma {:induction false} SplitSlashNone(s: string)
    requires '/' !in s
    ensures SplitSlash(s) == [s]
  {
    if s != "" {
      SplitSlashNone(s[1..]);
      assert s[0] in s && [s[0]] + s[1..] == s;
    }
  }

  lemma SplitSlashFirst(t: string)
    ensures SplitSlash("/" + t) == [""] + SplitSlash(t)
  {
    assert ("/" + t)[1..] == t;
  }

  /** Splitting a joined path gives its segments back. */
  lemma {:induction false} SplitJoinSegments(ss: seq<string>)
    requires ss != [] && forall s :: s in ss ==> '/' !in s
    ensures SplitSlash(JoinSegments(ss)) == [""] + ss
  {
    var first, rest := ss[0], JoinSegments(ss[1..]);
    assert JoinSegments(ss) == "/" + (first + rest);
    SplitSlashFirst(first + rest);
    if |ss| == 1 {
      SplitSlashNone(first);
      assert first + rest == first && ss == [first];
    } else {
      var t := rest[1..];
      assert rest == "/" + t && first + rest == first + "/" + t;
      assert SplitSlash(t) == ss[1..] by {
        SplitJoinSegments(ss[1..]);
        SplitSlashFirst(t);
        assert ([""] + SplitSlash(t))[1..] == ([""] + ss[1..])[1..];
      }
      SplitSlashStep(first, t);
      assert ss == [first] + ss[1..];
    }
  }

  lemma FormalWellFormed(ss: seq<string>)
    requires ss != [] && forall s :: s in ss ==> GoodSegment(s)
    ensures WellFormedPath(JoinSegments(ss))
  {
    SplitJoinSegments(ss);
    assert ss[0] in [""] + ss;
  }

  // ---- paths and moves, spelled out ----

  ghost predicate ProperName(s: string) {
    s !in {"", ".", ".."} && forall i :: 0 <= i < |s| ==> s[i] != '/'
  }

  /** A formal path is its five segments in this order, each a proper name; the package has to be of the
      distribution's own types. */
  lemma BuildFormalPathIs(v: DbVersion, dbType: string, pkgType: string, fileName: string)
    ensures var r := BuildFormalPath(v, dbType, pkgType, fileName);
            && (r.Ok? <==>
                  && v.distribution.Some? && v.distribution.value.dbType == dbType
                  && v.distribution.value.pkgType == pkgType
                  && ProperName(dbType) && ProperName(pkgType) && ProperName(v.distribution.value.name)
                  && ProperName(v.fullVersion) && ProperName(fileName))
            && (r.Ok? ==> r.value == "/" + dbType + "/" + pkgType + "/" + v.distribution.value.name
                                     + "/" + v.fullVersion + "/" + fileName)
  {
    if v.distribution.Some? {
      var a, b, c, d, e := dbType, pkgType, v.distribution.value.name, v.fullVersion, fileName;
      var segments := [a, b, c, d, e];
      assert a == segments[0] && b == segments[1] && c == segments[2] && d == segments[3] && e == segments[4];
      assert (forall s :: s in segments ==> GoodSegment(s)) <==>
               GoodSegment(a) && GoodSegment(b) && GoodSegment(c) && GoodSegment(d) && GoodSegment(e);
      JoinFive(a, b, c, d, e);
    }
  }

  lemma JoinFive(a: string, b: string, c: string, d: string, e: string)
    ensures JoinSegments([a, b, c, d, e]) == "/" + a + "/" + b + "/" + c + "/" + d + "/" + e
  {
    JoinLast([a, b, c, d], e);
    JoinLast([a, b, c], d);
    JoinLast([a, b], c);
    JoinLast([a], b);
    assert [a, b, c, d, e] == [a, b, c, d] + [e] && [a, b, c, d] == [a, b, c] + [d];
    assert [a, b, c] == [a, b] + [c] && [a, b] == [a] + [b];
    assert JoinSegments([a]) == "/" + a by {
      assert [a][1..] == [];
    }
  }

  /** The file name is what follows the last slash. */
  lemma BaseNameIs(path: string)
    ensures var name := BaseName(path); var k := |path| - |name|;
            k >= 0 && path[k..] == name && '/' !in name && (k == 0 || path[k - 1] == '/')
  {
  }

  /** A name between slashes or the ends of the path. */
  ghost predicate SegmentAt(path: string, i: int, j: int) {
    && 0 <= i <= j <= |path| && (forall x :: i <= x < j ==> path[x] != '/')
    && (i == 0 || path[i - 1] == '/') && (j == |path| || path[j] == '/')
  }

  ghost predicate HasSegment(path: string, s: string) {
    exists i, j :: SegmentAt(path, i, j) && path[i..j] == s
  }

  /** The length of the first segment. */
  function FirstSlash(path: string): (k: nat)
    ensures k <= |path| && '/' !in path[..k] && (k < |path| ==> path[k] == '/')
  {
    if path == "" || path[0] == '/' then 0 else 1 + FirstSlash(path[1..])
  }

  lemma SegmentShifted(path: string, k: nat, i: nat, j: nat)
    requires k < |path| && path[k] == '/' && i <= j <= |path| - k - 1
    ensures SegmentAt(path[k + 1..], i, j) <==> SegmentAt(path, i + k + 1, j + k + 1)
    ensures path[k + 1..][i..j] == path[i + k + 1..j + k + 1]
  {
    var rest := path[k + 1..];
    assert forall x :: 0 <= x < |rest| ==> rest[x] == path[x + k + 1];
    if SegmentAt(rest, i, j) {
      assert forall x :: i + k + 1 <= x < j + k + 1 ==> path[x] == rest[x - k - 1];
    }
  }

  lemma SegmentsAfter(path: string, k: nat, s: string)
    requires k < |path| && path[k] == '/' && '/' !in path[..k]
    ensures HasSegment(path, s) <==> s == path[..k] || HasSegment(path[k + 1..], s)
  {
    assert forall x :: 0 <= x < k ==> path[x] == path[..k][x] && path[x] != '/';
    assert path[0..k] == path[..k] && SegmentAt(path, 0, k);
    if HasSegment(path, s) {
      var i, j :| SegmentAt(path, i, j) && path[i..j] == s;
      if i > k {
        SegmentShifted(path, k, i - k - 1, j - k - 1);
      } else {
        assert i == 0 && j == k;
      }
    }
    if HasSegment(path[k + 1..], s) {
      var i, j :| SegmentAt(path[k + 1..], i, j) && path[k + 1..][i..j] == s;
      SegmentShifted(path, k, i, j);
    }
  }

  /** Splitting at slashes gives the segments. */
  lemma {:induction false} SplitSlashIs(path: string, s: string)
    ensures s in SplitSlash(path) <==> HasSegment(path, s)
    decreases |path|
  {
    var k := FirstSlash(path);
    if k == |path| {
      assert path[..k] == path;
      SplitSlashNone(path);
      OnlySegment(path, s);
    } else {
      assert path == path[..k] + "/" + path[k + 1..];
      SplitSlashStep(path[..k], path[k + 1..]);
      SplitSlashIs(path[k + 1..], s);
      SegmentsAfter(path, k, s);
    }
  }

  lemma OnlySegment(path: string, s: string)
    requires '/' !in path
    ensures HasSegment(path, s) <==> s == path
  {
    assert path[0..|path|] == path;
    assert SegmentAt(path, 0, |path|);
    if HasSegment(path, s) {
      var i, j :| SegmentAt(path, i, j) && path[i..j] == s;
      assert i == 0 && j == |path|;
    }
  }

  /** A path the store takes: some segment is not empty, and none is a dot or two. */
  lemma WellFormedIs(path: string)
    ensures WellFormedPath(path) <==>
              (exists s :: s != "" && HasSegment(path, s)) && !HasSegment(path, ".") && !HasSegment(path, "..")
  {
    SplitSlashIs(path, ".");
    SplitSlashIs(path, "..");
    forall s
      ensures s in SplitSlash(path) <==> HasSegment(path, s)
    {
      SplitSlashIs(path, s);
    }
  }

  // ---- safety ----

  /** Every record's file is stored, and no record points into staging. */
  ghost predicate Safe(st: Store) {
    forall k :: k in st.records ==> st.records[k] in st.files && !IsStagingPath(st.records[k])
  }

  /** A staging file's move, when it goes through, records the formal path, with the file there. */
  lemma MoveIsFormal(files: Files, d: PackageData)
    requires IsStagingPath(d.path) && MovePackageToFormal(files, d).Ok?
    ensures var formal := BuildFormalPath(d.dbVersion.value, d.dbType, d.pkgType, BaseName(d.path)).value;
            && !IsStagingPath(formal)
            && MovePackageToFormal(files, d).value
               == (if d.path in files then ((files - {d.path})[formal := files[d.path]], formal) else (files, formal))
            && (d.path !in files ==> formal in files)
  {
    var head := FormalShape(d.dbVersion.value, d.dbType, d.pkgType, BaseName(d.path));
    MovedIsFormal(head, BaseName(d.path), d.path);
  }

  /** What a move does: the recorded path is not a staging path and, for a staging file, is stored; only
      staging files leave the store. */
  lemma MoveKeeps(files: Files, d: PackageData)
    requires MovePackageToFormal(files, d).Ok?
    ensures var (files', path) := MovePackageToFormal(files, d).value;
            && !IsStagingPath(path)
            && (if IsStagingPath(d.path) then path in files' else path == d.path && files' == files)
            && forall f :: f in files && !IsStagingPath(f) ==> f in files'
  {
    if IsStagingPath(d.path) {
      MoveIsFormal(files, d);
    }
  }

  /** A creation that goes through keeps the store safe if and only if the path it was given is in staging
      or already stored. */
  lemma CreateSafeExactly(st: Store, d: PackageData)
    requires Safe(st) && AfterCreate(st, d).1
    ensures Safe(AfterCreate(st, d).0) <==> IsStagingPath(d.path) || d.path in st.files
  {
    MoveKeeps(st.files, d);
    var st' := AfterCreate(st, d).0;
    assert KeyOf(d) in st'.records;
  }

  /** The condition on the paths a request brings. */
  ghost predicate Brings(st: Store, r: Request) {
    match r
    case Create(d) => IsStagingPath(d.path) || d.path in st.files
    case BulkCreate(ds) => forall d :: d in ds ==> IsStagingPath(d.path) || d.path in st.files
    case _ => true
  }

  lemma {:induction false} CreateEachSafe(st: Store, ds: seq<PackageData>)
    requires Safe(st) && forall d :: d in ds ==> IsStagingPath(d.path) || d.path in st.files
    ensures Safe(CreateEach(st, ds).0)
    ensures forall f :: f in st.files && !IsStagingPath(f) ==> f in CreateEach(st, ds).0.files
    decreases |ds|
  {
    if ds != [] {
      var less, d := ds[..|ds| - 1], ds[|ds| - 1];
      CreateEachSafe(st, less);
      var (before, ok) := CreateEach(st, less);
      if ok && AfterCreate(before, d).1 {
        CreateSafeExactly(before, d);
        MoveKeeps(before.files, d);
      }
    }
  }

  lemma CleanSafe(st: Store, paths: set<string>, w: World)
    requires Safe(st)
    ensures Safe(Clean(st, paths, w))
  {
    forall k | k in st.records
      ensures st.records[k] in Clean(st, paths, w).files
    {
      assert st.records[k] in st.records.Values;
    }
  }

  lemma HandleSafe(st: Store, r: Request, w: World)
    requires Safe(st) && Brings(st, r)
    ensures Safe(Handle(st, r, w).0)
  {
    match r
    case Create(d) =>
      if AfterCreate(st, d).1 {
        CreateSafeExactly(st, d);
      }
    case BulkCreate(ds) =>
      CreateEachSafe(st, ds);
    case Destroy(k) =>
      if k in st.records && k !in w.inUse {
        CleanSafe(st.(records := st.records - {k}), {st.records[k]}, w);
      }
    case BulkDestroy(ks) =>
      CleanSafe(st.(records := st.records - ks), set k | k in ks && k in st.records :: st.records[k], w);
  }

  ghost predicate Legal(st: Store, rs: seq<(Request, World)>)
    decreases |rs|
  {
    rs == [] || (Brings(st, rs[0].0) && Legal(Handle(st, rs[0].0, rs[0].1).0, rs[1..]))
  }

  ghost function HandleAll(st: Store, rs: seq<(Request, World)>): Store
    decreases |rs|
  {
    if rs == [] then st else HandleAll(Handle(st, rs[0].0, rs[0].1).0, rs[1..])
  }

  /** Over every run of requests, refused, failing halfway or not, every surviving record keeps a stored
      file outside staging. */
  lemma {:induction false} RunSafe(st: Store, rs: seq<(Request, World)>)
    requires Safe(st) && Legal(st, rs)
    ensures Safe(HandleAll(st, rs))
    decreases |rs|
  {
    if rs != [] {
      HandleSafe(st, rs[0].0, rs[0].1);
      RunSafe(Handle(st, rs[0].0, rs[0].1).0, rs[1..]);
    }
  }

  /** Some record that goes uses the file, and none that stays does. */
  ghost predicate OnlyUsedBy(st: Store, keys: set<Key>, f: string) {
    && (exists k :: k in keys && k in st.records && st.records[k] == f)
    && (forall k :: k in st.records && st.records[k] == f ==> k in keys)
  }

  /** Deleting records deletes exactly the files that only they used, where the artifact store lets it. */
  lemma DestroyDeletesExactly(st: Store, keys: set<Key>, w: World, f: string)
    requires AfterBulkDestroy(st, keys, w).1
    ensures var st' := AfterBulkDestroy(st, keys, w).0;
            var deleted := OnlyUsedBy(st, keys, f) && f != "" && !w.fails(f);
            && st'.records == st.records - keys && (f in st'.files <==> f in st.files && !deleted)
            && (f in st'.files ==> st'.files[f] == st.files[f])
  {
    var left := st.records - keys;
    assert f in left.Values <==> exists k :: k in left && left[k] == f;
    assert forall k :: k in st.records && k !in keys ==> k in left && left[k] == st.records[k];
  }

  // ---- contents ----

  /** The creation moves a staging file onto this path. */
  predicate MovesOnto(files: Files, d: PackageData, path: string) {
    && IsStagingPath(d.path) && d.path in files && d.dbVersion.Some?
    && BuildFormalPath(d.dbVersion.value, d.dbType, d.pkgType, BaseName(d.path)) == Ok(path)
  }

  /** It moves other contents onto it than are there. */
  predicate Replaces(files: Files, d: PackageData, path: string) {
    MovesOnto(files, d, path) && path in files && files[d.path] != files[path]
  }

  /** A creation leaves a stored file outside staging as it is if and only if it does not replace it. */
  lemma ContentKeptExactly(st: Store, d: PackageData, path: string)
    requires AfterCreate(st, d).1 && path in st.files && !IsStagingPath(path)
    ensures var files' := AfterCreate(st, d).0.files;
            path in files' && (files'[path] == st.files[path] <==> !Replaces(st.files, d, path))
  {
    if IsStagingPath(d.path) {
      MoveIsFormal(st.files, d);
    }
  }

  /** No package of the batch replaces the file when its turn comes. */
  ghost predicate BatchSpares(st: Store, ds: seq<PackageData>, path: string) {
    forall i :: 0 <= i < |ds| ==> !Replaces(CreateEach(st, ds[..i]).0.files, ds[i], path)
  }

  /** Over a batch that goes through or stops halfway, a path that no package of it replaces keeps its
      contents. */
  lemma {:induction false} BatchKeepsContent(st: Store, ds: seq<PackageData>, path: string)
    requires path in st.files && !IsStagingPath(path) && BatchSpares(st, ds, path)
    ensures path in CreateEach(st, ds).0.files && CreateEach(st, ds).0.files[path] == st.files[path]
    decreases |ds|
  {
    if ds != [] {
      var less, d := ds[..|ds| - 1], ds[|ds| - 1];
      assert forall i :: 0 <= i < |less| ==> less[..i] == ds[..i] && less[i] == ds[i];
      BatchKeepsContent(st, less, path);
      assert ds[..|ds| - 1] == less;
      var (before, ok) := CreateEach(st, less);
      if ok && AfterCreate(before, d).1 {
        ContentKeptExactly(before, d, path);
      }
    }
  }

  ghost predicate Spares(st: Store, r: Request, path: string) {
    match r
    case Create(d) => !Replaces(st.files, d, path)
    case BulkCreate(ds) => BatchSpares(st, ds, path)
    case _ => true
  }

  /** The record lasts over the run, under its path, and no request replaces the file there. */
  ghost predicate LastsUnspoilt(st: Store, rs: seq<(Request, World)>, k: Key, path: string)
    decreases |rs|
  {
    && k in st.records && st.records[k] == path
    && (rs != [] ==> Spares(st, rs[0].0, path) && LastsUnspoilt(Handle(st, rs[0].0, rs[0].1).0, rs[1..], k, path))
  }

  lemma HandleKeepsContent(st: Store, r: Request, w: World, k: Key, path: string)
    requires path in st.files && !IsStagingPath(path) && Spares(st, r, path)
    requires var records := Handle(st, r, w).0.records; k in records && records[k] == path
    ensures path in Handle(st, r, w).0.files && Handle(st, r, w).0.files[path] == st.files[path]
  {
    match r
    case Create(d) =>
      if AfterCreate(st, d).1 {
        ContentKeptExactly(st, d, path);
      }
    case BulkCreate(ds) => BatchKeepsContent(st, ds, path);
    case Destroy(key) => assert path in Handle(st, r, w).0.records.Values;
    case BulkDestroy(keys) => assert path in Handle(st, r, w).0.records.Values;
  }

  /** Over every run, whatever else is created and destroyed meanwhile, a record that lasts keeps its file
      with the same contents as long as no request replaces it. */
  lemma {:induction false} RunKeepsContent(st: Store, rs: seq<(Request, World)>, k: Key, path: string)
    requires Safe(st) && Legal(st, rs) && LastsUnspoilt(st, rs, k, path)
    ensures path in st.files && path in HandleAll(st, rs).files && HandleAll(st, rs).files[path] == st.files[path]
    decreases |rs|
  {
    if rs != [] {
      HandleSafe(st, rs[0].0, rs[0].1);
      HandleKeepsContent(st, rs[0].0, rs[0].1, k, path);
      RunKeepsContent(Handle(st, rs[0].0, rs[0].1).0, rs[1..], k, path);
    }
  }

  /** The same package for another version, whose distribution differs in its engine only. */
  function ForEngine(d: PackageData, id: nat, engine: string, path: string): PackageData
    requires d.dbVersion.Some? && d.dbVersion.value.distribution.Some?
  {
    var v := d.dbVersion.value;
    d.(path := path, dbVersion := Some(v.(id := id, distribution := Some(v.distribution.value.(engine := engine)))))
  }

  lemma MoveGoes(files: Files, d: PackageData, formal: string)
    requires IsStagingPath(d.path) && d.path in files && d.dbVersion.Some?
    requires BuildFormalPath(d.dbVersion.value, d.dbType, d.pkgType, BaseName(d.path)) == Ok(formal)
    requires WellFormedPath(d.path) && WellFormedPath(formal) && !IsStagingPath(formal)
    ensures MovePackageToFormal(files, d) == Ok(((files - {d.path})[formal := files[d.path]], formal))
  {
    var head := FormalShape(d.dbVersion.value, d.dbType, d.pkgType, BaseName(d.path));
    MovedIsFormal(head, BaseName(d.path), d.path);
  }

  lemma MoveWent(files: Files, d: PackageData) returns (formal: string)
    requires IsStagingPath(d.path) && MovePackageToFormal(files, d).Ok?
    ensures BuildFormalPath(d.dbVersion.value, d.dbType, d.pkgType, BaseName(d.path)) == Ok(formal)
    ensures WellFormedPath(d.path) && WellFormedPath(formal) && !IsStagingPath(formal)
  {
    formal := BuildFormalPath(d.dbVersion.value, d.dbType, d.pkgType, BaseName(d.path)).value;
  }

  /** Two records of different engines share one path, so that creating the second replaces the file of the
      first: for every package in staging, every other engine and every other staging file of that name. */
  lemma EngineOverwrites(st: Store, d: PackageData, id: nat, engine: string, path: string)
    requires IsStagingPath(d.path) && d.path in st.files && AfterCreate(st, d).1
    requires IsStagingPath(path) && path in st.files && path != d.path && WellFormedPath(path)
    requires BaseName(path) == BaseName(d.path) && id != d.dbVersion.value.id
    ensures var e := ForEngine(d, id, engine, path);
            var (mid, ok) := AfterCreate(st, d);
            var (end, ok') := AfterCreate(mid, e);
            && ok && ok' && KeyOf(d) != KeyOf(e)
            && KeyOf(d) in end.records && KeyOf(e) in end.records
            && end.records[KeyOf(d)] == end.records[KeyOf(e)] && end.records[KeyOf(d)] in mid.files
            && mid.files[mid.records[KeyOf(d)]] == st.files[d.path]
            && end.records[KeyOf(d)] in end.files && end.files[end.records[KeyOf(d)]] == st.files[path]
  {
    var e := ForEngine(d, id, engine, path);
    var formal := MoveWent(st.files, d);
    MoveGoes(st.files, d, formal);
    MoveGoes((st.files - {d.path})[formal := st.files[d.path]], e, formal);
  }

  lemma StagingBase(dir: string)
    ensures IsStagingPath("/staging/" + dir + "/x") && BaseName("/staging/" + dir + "/x") == "x"
  {
    var path := "/staging/" + dir + "/x";
    assert path[..9] == STAGING;
    assert path[|path| - 1..] == "x";
    LastSlashIs(path, |path| - 1);
  }

  lemma StagingWellFormed(dir: string)
    requires GoodSegment(dir)
    ensures WellFormedPath("/staging/" + dir + "/x")
  {
    var segments := ["staging", dir, "x"];
    assert |"staging"| == 7 && |"x"| == 1;
    FormalWellFormed(segments);
    JoinLast(["staging", dir], "x");
    JoinLast(["staging"], dir);
    assert segments == ["staging", dir] + ["x"] && ["staging", dir] == ["staging"] + [dir];
    assert JoinSegments(["staging"]) == "/staging" by {
      assert ["staging"][1..] == [];
    }
    assert "/staging/" + dir + "/x" == "/staging" + "/" + dir + "/" + "x";
  }

  lemma FailsAtSecond(st: Store, d: PackageData, bad: PackageData)
    requires AfterCreate(st, d).1 && MovePackageToFormal(AfterCreate(st, d).0.files, bad).Err?
    ensures CreateEach(st, [d, bad]) == (AfterCreate(st, d).0, false)
  {
    assert [d, bad][..1] == [d] && [d][..0] == [];
    assert CreateEach(st, []) == (st, true);
    assert CreateEach(st, [d]) == AfterCreate(st, d);
  }

  /** A batch that fails rolls its records back but not the file it replaced: the old record stays, with
      the new package's contents under it. */
  lemma RollbackKeepsReplacement(st: Store, d: PackageData, k: Key) returns (ds: seq<PackageData>)
    requires Safe(st) && AfterCreate(st, d).1 && k in st.records && MovesOnto(st.files, d, st.records[k])
    ensures ds != [] && ds[0] == d && !AfterBulkCreate(st, ds).1
    ensures var st' := AfterBulkCreate(st, ds).0;
            st'.records == st.records && st.records[k] in st'.files && st'.files[st.records[k]] == st.files[d.path]
  {
    ds := [d, d.(dbVersion := None)];
    FailsAtSecond(st, d, d.(dbVersion := None));
    MoveIsFormal(st.files, d);
  }

  lemma ExampleFormal(segments: seq<string>) returns (formal: string)
    requires segments == ["m", "a", "n", "v", "x"]
    ensures formal == JoinSegments(segments) && WellFormedPath(formal) && !IsStagingPath(formal)
    ensures forall s :: s in segments ==> GoodSegment(s)
  {
    formal := JoinSegments(segments);
    assert |"m"| == 1 && |"a"| == 1 && |"n"| == 1 && |"v"| == 1 && |"x"| == 1;
    FormalWellFormed(segments);
    assert formal[1] == 'm' && STAGING[1] == 's';
  }

  ghost function ExamplePackage(path: string): PackageData {
    PackageData("x", "1", Some(DbVersion(1, "v", Some(Distribution("n", "e", "m", "a")))), "a", "m", path)
  }

  lemma ExampleStore(mine: string, other: string, formal: string) returns (st: Store, k: Key)
    requires IsStagingPath(mine) && IsStagingPath(other) && mine != other && WellFormedPath(mine)
    requires BaseName(mine) == "x" && !IsStagingPath(formal) && WellFormedPath(formal)
    requires BuildFormalPath(ExamplePackage(mine).dbVersion.value, "m", "a", "x") == Ok(formal)
    ensures Safe(st) && AfterCreate(st, ExamplePackage(mine)).1 && mine in st.files && other in st.files
    ensures k in st.records && k != KeyOf(ExamplePackage(mine))
    ensures Replaces(st.files, ExamplePackage(mine), st.records[k])
  {
    k := Key("x", "1", Some(2), "a", "m");
    st := Store(map[k := formal], map[mine := "1", other := "2", formal := "0"]);
    assert "0" != "1";
    MoveGoes(st.files, ExamplePackage(mine), formal);
  }

  /** There is a store, a package, a record and a second staging file that meet all that the last two results
      ask for. */
  lemma OverwritingExample() returns (st: Store, d: PackageData, k: Key, path: string)
    ensures Safe(st) && AfterCreate(st, d).1 && IsStagingPath(d.path) && d.path in st.files && d.dbVersion.Some?
    ensures k in st.records && k != KeyOf(d) && Replaces(st.files, d, st.records[k])
    ensures IsStagingPath(path) && path in st.files && path != d.path && WellFormedPath(path)
    ensures BaseName(path) == BaseName(d.path)
  {
    var mine, other := "/staging/" + "p" + "/x", "/staging/" + "q" + "/x";
    StagingBase("p");
    StagingBase("q");
    StagingWellFormed("p");
    StagingWellFormed("q");
    assert mine[9] != other[9];
    var formal := ExampleFormal(["m", "a", "n", "v", "x"]);
    d, path := ExamplePackage(mine), other;
    st, k := ExampleStore(mine, other, formal);
  }

  // ---- moves and requests, spelled out ----

  ghost predicate InStaging(path: string) {
    |path| > 9 && path[..9] == "/staging/"
  }

  /** The package's version is one of a distribution of the package's own types, and all five names of its
      formal path are proper; this is then the path. */
  ghost predicate HasFormal(d: PackageData, formal: string) {
    && d.dbVersion.Some? && d.dbVersion.value.distribution.Some?
    && var v, dist := d.dbVersion.value, d.dbVersion.value.distribution.value;
       && dist.dbType == d.dbType && dist.pkgType == d.pkgType
       && ProperName(d.dbType) && ProperName(d.pkgType) && ProperName(dist.name) && ProperName(v.fullVersion)
       && ProperName(BaseName(d.path))
       && formal == "/" + d.dbType + "/" + d.pkgType + "/" + dist.name + "/" + v.fullVersion + "/" + BaseName(d.path)
  }

  lemma InStagingIs(path: string)
    ensures IsStagingPath(path) <==> InStaging(path)
  {
  }

  lemma FormalInStaging(first: string, rest: string)
    requires ProperName(first) && rest != ""
    ensures InStaging("/" + first + "/" + rest) <==> first == "staging"
  {
    var path := "/" + first + "/" + rest;
    assert forall i :: 0 <= i < |first| ==> path[i + 1] == first[i];
    assert path[|first| + 1] == '/';
    if InStaging(path) {
      assert path[..9] == "/staging/";
      assert path[8] == '/' && forall i :: 1 <= i < 8 ==> path[i] == "/staging/"[i] && path[i] != '/';
      assert |first| == 7;
      assert first == path[1..8] == "staging";
    }
    if first == "staging" {
      assert path[..9] == "/staging/";
    }
  }

  /** What moving a package out of staging comes to: other paths stay as they are. A staging path goes to the
      package's formal path, whose first name must not be the staging area's, if no name in it is a dot or
      two and the file is there, replacing what was at the formal path; or was moved before. */
  lemma MoveExactly(files: Files, d: PackageData, formal: string)
    ensures !InStaging(d.path) ==> MovePackageToFormal(files, d) == Ok((files, d.path))
    ensures InStaging(d.path) && !(exists f :: HasFormal(d, f)) ==> MovePackageToFormal(files, d).Err?
    ensures InStaging(d.path) && HasFormal(d, formal) ==>
              var goes := !HasSegment(d.path, ".") && !HasSegment(d.path, "..") && d.dbType != "staging"
                          && (d.path in files || formal in files);
              if !goes then MovePackageToFormal(files, d).Err?
              else MovePackageToFormal(files, d)
                   == Ok((if d.path in files then (files - {d.path})[formal := files[d.path]] else files, formal))
  {
    InStagingIs(d.path);
    if InStaging(d.path) {
      if d.dbVersion.Some? {
        var v := d.dbVersion.value;
        BuildFormalPathIs(v, d.dbType, d.pkgType, BaseName(d.path));
        if BuildFormalPath(v, d.dbType, d.pkgType, BaseName(d.path)).Ok? {
          assert HasFormal(d, BuildFormalPath(v, d.dbType, d.pkgType, BaseName(d.path)).value);
        }
        if HasFormal(d, formal) {
          MoveByFormal(files, d, formal);
        }
      }
    }
  }

  lemma StagingHasName(path: string)
    requires InStaging(path)
    ensures exists s :: s != "" && HasSegment(path, s)
  {
    assert path[..9][0] == '/' && path[..9][8] == '/';
    assert path[1..8] == path[..9][1..8] == "staging";
    assert SegmentAt(path, 1, 8);
    assert HasSegment(path, "staging");
  }

  lemma FormalFacts(d: PackageData, formal: string)
    requires InStaging(d.path) && HasFormal(d, formal)
    requires BuildFormalPath(d.dbVersion.value, d.dbType, d.pkgType, BaseName(d.path)) == Ok(formal)
    ensures WellFormedPath(formal) && (IsStagingPath(formal) <==> d.dbType == "staging")
    ensures BaseName(formal) == BaseName(d.path)
    ensures Join(DirName(formal), BaseName(TrimSlashes(d.path))) == formal
  {
    FormalPlace(d, formal);
    var v, name := d.dbVersion.value, BaseName(d.path);
    var head := FormalShape(v, d.dbType, d.pkgType, name);
    MovedIsFormal(head, name, d.path);
  }

  lemma FormalPlace(d: PackageData, formal: string)
    requires HasFormal(d, formal)
    requires BuildFormalPath(d.dbVersion.value, d.dbType, d.pkgType, BaseName(d.path)) == Ok(formal)
    ensures WellFormedPath(formal) && (IsStagingPath(formal) <==> d.dbType == "staging")
  {
    var v, name := d.dbVersion.value, BaseName(d.path);
    var dist := v.distribution.value;
    InStagingIs(formal);
    var rest := d.pkgType + "/" + dist.name + "/" + v.fullVersion + "/" + name;
    assert formal == "/" + d.dbType + "/" + rest;
    FormalInStaging(d.dbType, rest);
    FormalWellFormed([d.dbType, d.pkgType, dist.name, v.fullVersion, name]);
  }

  lemma MoveByFormal(files: Files, d: PackageData, formal: string)
    requires InStaging(d.path) && HasFormal(d, formal)
    requires BuildFormalPath(d.dbVersion.value, d.dbType, d.pkgType, BaseName(d.path)) == Ok(formal)
    ensures var goes := !HasSegment(d.path, ".") && !HasSegment(d.path, "..") && d.dbType != "staging"
                        && (d.path in files || formal in files);
            if !goes then MovePackageToFormal(files, d).Err?
            else MovePackageToFormal(files, d)
                 == Ok((if d.path in files then (files - {d.path})[formal := files[d.path]] else files, formal))
  {
    FormalFacts(d, formal);
    InStagingIs(d.path);
    StagingHasName(d.path);
    WellFormedIs(d.path);
  }

  /** Which record a package is kept under: one for each name, version, version row and pair of types. */
  lemma SameRecord(d: PackageData, e: PackageData)
    ensures KeyOf(d) == KeyOf(e) <==>
              && d.name == e.name && d.version == e.version && d.pkgType == e.pkgType && d.dbType == e.dbType
              && d.dbVersion.Some? == e.dbVersion.Some?
              && (d.dbVersion.Some? ==> d.dbVersion.value.id == e.dbVersion.value.id)
  {
  }

  /** A creation goes through when the move does; it then records the moved path for the package and changes
      no other record. */
  lemma CreateIs(st: Store, d: PackageData)
    ensures var (st', ok) := AfterCreate(st, d);
            && (ok <==> MovePackageToFormal(st.files, d).Ok?)
            && (if !ok then st' == st
                else
                  && st'.files == MovePackageToFormal(st.files, d).value.0
                  && st'.records.Keys == st.records.Keys + {KeyOf(d)}
                  && st'.records[KeyOf(d)] == MovePackageToFormal(st.files, d).value.1
                  && forall k :: k in st.records && k != KeyOf(d) ==> st'.records[k] == st.records[k])
  {
  }

  lemma CreateEachStep(st: Store, ds: seq<PackageData>, i: nat)
    requires i < |ds| && CreateEach(st, ds[..i]).1
    ensures CreateEach(st, ds[..i + 1]) == AfterCreate(CreateEach(st, ds[..i]).0, ds[i])
  {
    assert ds[..i + 1][..i] == ds[..i];
  }

  lemma {:induction false} CreateEachUpto(st: Store, ds: seq<PackageData>) returns (done: nat)
    ensures done <= |ds| && CreateEach(st, ds[..done]).1
    ensures done < |ds| ==> !AfterCreate(CreateEach(st, ds[..done]).0, ds[done]).1
    ensures CreateEach(st, ds) == (CreateEach(st, ds[..done]).0, done == |ds|)
    decreases |ds|
  {
    if ds == [] {
      done := 0;
      assert ds[..0] == [];
    } else {
      var less, n := ds[..|ds| - 1], |ds| - 1;
      done := CreateEachUpto(st, less);
      assert less[..done] == ds[..done] && (done < n ==> less[done] == ds[done]);
      if done == n {
        assert less[..n] == less && ds[..n + 1] == ds;
        if AfterCreate(CreateEach(st, less).0, ds[n]).1 {
          done := n + 1;
        }
      }
    }
  }

  /** A batch creates its packages in turn up to the first that fails; then no record has changed, and the
      files are those at that point. */
  lemma BulkCreateIs(st: Store, ds: seq<PackageData>) returns (done: nat)
    ensures done <= |ds| && CreateEach(st, ds[..done]).1 && (AfterBulkCreate(st, ds).1 <==> done == |ds|)
    ensures forall i :: 0 <= i < done && CreateEach(st, ds[..i]).1 ==>
              CreateEach(st, ds[..i + 1]) == AfterCreate(CreateEach(st, ds[..i]).0, ds[i])
    ensures done < |ds| ==> !AfterCreate(CreateEach(st, ds[..done]).0, ds[done]).1
    ensures AfterBulkCreate(st, ds).0.files == CreateEach(st, ds[..done]).0.files
    ensures AfterBulkCreate(st, ds).0.records
         == if done < |ds| then st.records else CreateEach(st, ds[..done]).0.records
  {
    done := CreateEachUpto(st, ds);
    forall i | 0 <= i < done && CreateEach(st, ds[..i]).1
      ensures CreateEach(st, ds[..i + 1]) == AfterCreate(CreateEach(st, ds[..i]).0, ds[i])
    {
      CreateEachStep(st, ds, i);
    }
  }

  /** A deletion is refused when a record is in use, and a single one also when there is none; it then changes
      nothing. */
  lemma DestroyIs(st: Store, key: Key, keys: set<Key>, w: World)
    ensures AfterDestroy(st, key, w).1 <==> key in st.records && key !in w.inUse
    ensures AfterBulkDestroy(st, keys, w).1 <==> forall k :: k in keys ==> k !in w.inUse
    ensures !AfterDestroy(st, key, w).1 ==> AfterDestroy(st, key, w).0 == st
    ensures !AfterBulkDestroy(st, keys, w).1 ==> AfterBulkDestroy(st, keys, w).0 == st
    ensures AfterDestroy(st, key, w).1 ==> AfterDestroy(st, key, w).0 == AfterBulkDestroy(st, {key}, w).0
  {
    if AfterDestroy(st, key, w).1 {
      assert (set k | k in {key} && k in st.records :: st.records[k]) == {st.records[key]};
    }
  }

  // ---- the handlers ----

  class Packages {
    var records: map<Key, string>
    var files: Files

    function View(): Store
      reads this
    {
      Store(records, files)
    }

    method CreatePackage(d: PackageData) returns (ok: bool)
      modifies this
      ensures (View(), ok) == AfterCreate(old(View()), d)
    {
      var moved := MovePackageToFormal(files, d);
      if moved.Err? {
        return false;
      }
      files := moved.value.0;
      records := records[KeyOf(d) := moved.value.1];
      return true;
    }

    method BulkCreatePackages(ds: seq<PackageData>) returns (ok: bool)
      modifies this
      ensures (View(), ok) == AfterBulkCreate(old(View()), ds)
    {
      var savepoint := records;
      for i := 0 to |ds|
        invariant CreateEach(old(View()), ds[..i]) == (View(), true)
      {
        assert ds[..i + 1][..i] == ds[..i];
        ok := CreatePackage(ds[i]);
        if !ok {
          CreateEachStops(old(View()), ds, i + 1);
          records := savepoint;
          return;
        }
      }
      assert ds[..|ds|] == ds;
      return true;
    }

    method CleanUnreferencedFiles(paths: set<string>, w: World) returns (deleted: seq<string>)
      modifies this`files
      ensures View() == Clean(old(View()), paths, w)
      ensures forall p :: p in deleted <==> p in paths && p != "" && p !in records.Values && !w.fails(p)
    {
      deleted := [];
      var todo := (set p | p in paths && p != "") - records.Values;
      ghost var all := todo;
      while todo != {}
        invariant todo <= all && records == old(records)
        invariant forall p :: p in deleted <==> p in all - todo && !w.fails(p)
        invariant files == old(files) - set p | p in all - todo && !w.fails(p)
        decreases todo
      {
        StringMember(todo);
        var path :| path in todo;
        if !w.fails(path) {
          files := files - {path};
          deleted := deleted + [path];
        }
        todo := todo - {path};
      }
    }

    method DestroyPackage(key: Key, w: World) returns (ok: bool)
      modifies this
      ensures (View(), ok) == AfterDestroy(old(View()), key, w)
    {
      if key !in records || key in w.inUse {
        return false;
      }
      var path := records[key];
      records := records - {key};
      var deleted := CleanUnreferencedFiles({path}, w);
      return true;
    }

    method BulkDestroyPackages(keys: set<Key>, w: World) returns (ok: bool)
      modifies this
      ensures (View(), ok) == AfterBulkDestroy(old(View()), keys, w)
    {
      if exists k | k in keys :: k in w.inUse {
        return false;
      }
      var paths := set k | k in keys && k in records :: records[k];
      records := records - keys;
      var deleted := CleanUnreferencedFiles(paths, w);
      return true;
    }
  }

  lemma {:induction false} CreateEachStops(st: Store, ds: seq<PackageData>, n: nat)
    requires n <= |ds| && !CreateEach(st, ds[..n]).1
    ensures CreateEach(st, ds) == CreateEach(st, ds[..n])
    decreases |ds|
  {
    if n == |ds| {
      assert ds[..n] == ds;
    } else {
      assert ds[..|ds| - 1][..n] == ds[..n];
      CreateEachStops(st, ds[..|ds| - 1], n);
    }
  }
}
