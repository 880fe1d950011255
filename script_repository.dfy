/**
 * Ladybug's script repository (lib/ladybug/script_repository.rb): the
 * Ruby source files of the application, enumerated once, and lookup of a
 * script by any combination of its attributes.
 *
 * The file system is an input: the entries the recursive `Dir.glob` yields, in
 * order, each with what `File.directory?`, `File.expand_path` and
 * `File.stat` report for it. `uuid(k)` is the id `SecureRandom.uuid`
 * gives the k-th script.
 */
module ScriptRepository {
  import opened Wrappers

  const RootUrl := "http://localhost"

  datatype FileEntry = FileEntry(path: string, isDirectory: bool, absolutePath: string, size: int, lastModifiedTime: int)

  /** The OpenStruct built for a script. */
  datatype Script = Script(id: string, path: string, absolutePath: string, virtualUrl: string,
                           size: int, lastModifiedTime: int)

  /** A value `script[key]` can return, or a query can ask for. */
  datatype AttributeValue = Text(s: string) | Integer(n: int) | Time(t: int) | NilValue

  /** `script[key]`: an OpenStruct answers `nil` for a key it does not have. */
  function Attribute(s: Script, key: string): AttributeValue
  {
    if key == "id" then Text(s.id)
    else if key == "path" then Text(s.path)
    else if key == "absolute_path" then Text(s.absolutePath)
    else if key == "virtual_url" then Text(s.virtualUrl)
    else if key == "size" then Integer(s.size)
    else if key == "last_modified_time" then Time(s.lastModifiedTime)
    else NilValue
  }

  /** The script answers every key of the query with the value the query asks for. */
  predicate MatchesAll(s: Script, args: seq<(string, AttributeValue)>)
  {
    forall i :: 0 <= i < |args| ==> Attribute(s, args[i].0) == args[i].1
  }

  /** `@scripts.find { ... }`: the first script that matches every pair. */
  function FindIn(scripts: seq<Script>, args: seq<(string, AttributeValue)>): (r: Option<Script>)
    ensures r.None? <==> forall k :: 0 <= k < |scripts| ==> !MatchesAll(scripts[k], args)
    ensures r.Some? ==> exists k :: 0 <= k < |scripts| && scripts[k] == r.value && MatchesAll(scripts[k], args) &&
                                    forall j :: 0 <= j < k ==> !MatchesAll(scripts[j], args)
  {
    if scripts == [] then None
    else if MatchesAll(scripts[0], args) then Some(scripts[0])
    else
      var r := FindIn(scripts[1..], args);
      assert forall k :: 1 <= k < |scripts| ==> scripts[k] == scripts[1..][k - 1];
      r
  }

  /** The last index of `c` in `s`. */
  function LastIndex(s: string, c: char): (r: Option<nat>)
    ensures r.None? <==> forall j :: 0 <= j < |s| ==> s[j] != c
    ensures r.Some? ==> r.value < |s| && s[r.value] == c && forall j :: r.value < j < |s| ==> s[j] != c
  {
    if s == [] then None
    else if s[|s| - 1] == c then Some(|s| - 1)
    else
      var r := LastIndex(s[..|s| - 1], c);
      assert forall j :: 0 <= j < |s| - 1 ==> s[j] == s[..|s| - 1][j];
      r
  }

  /** The part of a path after its last "/". */
  function Basename(path: string): (b: string)
    ensures forall j :: 0 <= j < |b| ==> b[j] != '/'
  {
    match LastIndex(path, '/')
    case Some(i) => path[i + 1..]
    case None => path
  }

  /** How many dots start `s`. */
  function LeadingDots(s: string): (n: nat)
    ensures n <= |s|
    ensures forall j :: 0 <= j < n ==> s[j] == '.'
    ensures n < |s| ==> s[n] != '.'
  {
    if s != [] && s[0] == '.' then
      var n := LeadingDots(s[1..]);
      assert forall j :: 1 <= j < |s| ==> s[j] == s[1..][j - 1];
      1 + n
    else 0
  }

  /**
   * `File.extname`: from the last "." of the base name, where dots that
   * start the base name do not count ("a.rb" gives ".rb", ".rb" gives "").
   */
  function Extname(path: string): (r: string)
    ensures r == [] || r[0] == '.'
    ensures forall j :: 0 <= j < |r| ==> r[j] != '/'
    ensures forall j :: 1 <= j < |r| ==> r[j] != '.'
  {
    var base := Basename(path);
    var rest := base[LeadingDots(base)..];
    match LastIndex(rest, '.')
    case Some(i) => rest[i..]
    case None => ""
  }

  predicate AllDots(s: string)
  {
    forall j :: 0 <= j < |s| ==> s[j] == '.'
  }

  /** The extension is ".rb" exactly when the base name is a stem that is not all dots followed by ".rb". */
  lemma RubyExtension(path: string)
    ensures var b := Basename(path);
            Extname(path) == ".rb" <==> |b| >= 3 && b[|b| - 3..] == ".rb" && !AllDots(b[..|b| - 3])
  {
    var b := Basename(path);
    var d := LeadingDots(b);
    if Extname(path) == ".rb" {
      ExtnameRbShape(b, d);
    }
    if |b| >= 3 && b[|b| - 3..] == ".rb" && !AllDots(b[..|b| - 3]) {
      RbShapeExtname(b, d);
    }
  }

  /** `b` with its `d` leading dots dropped has extension ".rb": then so has `b`'s stem shape. */
  lemma ExtnameRbShape(b: string, d: nat)
    requires d <= |b| && (d < |b| ==> b[d] != '.')
    requires var rest := b[d..];
             LastIndex(rest, '.').Some? && rest[LastIndex(rest, '.').value..] == ".rb"
    ensures |b| >= 3 && b[|b| - 3..] == ".rb" && !AllDots(b[..|b| - 3])
  {
    var rest := b[d..];
    var i := LastIndex(rest, '.').value;
    assert rest[i..] == b[d + i..];
    assert b[d + i] == '.';
    assert i != 0;
    assert b[..|b| - 3][d] == b[d];
  }

  lemma RbShapeExtname(b: string, d: nat)
    requires d <= |b| && (d < |b| ==> b[d] != '.') && forall j :: 0 <= j < d ==> b[j] == '.'
    requires |b| >= 3 && b[|b| - 3..] == ".rb" && !AllDots(b[..|b| - 3])
    ensures var rest := b[d..];
            LastIndex(rest, '.').Some? && rest[LastIndex(rest, '.').value..] == ".rb"
  {
    var rest := b[d..];
    var stem := b[..|b| - 3];
    var j :| 0 <= j < |stem| && stem[j] != '.';
    assert b[j] != '.';
    assert d <= j;
    assert rest[|rest| - 3..] == b[|b| - 3..];
    assert rest[|rest| - 3] == '.' && rest[|rest| - 2] == 'r' && rest[|rest| - 1] == 'b';
  }

  /** `select` with the block `keep`; `reject` is `select` with the negated block. Order is kept. */
  function Filter<T(!new)>(s: seq<T>, keep: T -> bool): (r: seq<T>)
    ensures forall x :: x in r <==> x in s && keep(x)
  {
    if s == [] then []
    else
      var rest := Filter(s[1..], keep);
      assert forall x :: x in s <==> x == s[0] || x in s[1..];
      (if keep(s[0]) then [s[0]] else []) + rest
  }

  predicate IsFile(e: FileEntry)
  {
    !e.isDirectory
  }

  predicate HasRubyExtension(e: FileEntry)
  {
    Extname(e.path) == ".rb"
  }

  /** The `reject` step: drop directories. */
  function RejectDirectories(entries: seq<FileEntry>): (r: seq<FileEntry>)
    ensures forall e :: e in r <==> e in entries && !e.isDirectory
  {
    Filter(entries, IsFile)
  }

  /** The `select` step: keep files whose extension is ".rb". */
  function SelectRuby(entries: seq<FileEntry>): (r: seq<FileEntry>)
    ensures forall e :: e in r <==> e in entries && Extname(e.path) == ".rb"
  {
    Filter(entries, HasRubyExtension)
  }

  /** The `map` step for one file. */
  function ToScript(e: FileEntry, id: string): Script
  {
    Script(id, e.path, e.absolutePath, RootUrl + "/" + e.path, e.size, e.lastModifiedTime)
  }

  /** The pipeline of `enumerate_scripts`. */
  function EnumerateScripts(entries: seq<FileEntry>, uuid: nat -> string): (scripts: seq<Script>)
  {
    var files := SelectRuby(RejectDirectories(entries));
    seq(|files|, k requires 0 <= k < |files| => ToScript(files[k], uuid(k)))
  }

  predicate IsRubySource(e: FileEntry)
  {
    !e.isDirectory && Extname(e.path) == ".rb"
  }

  /** Filtering a concatenation filters each part: the survivors keep their input order. */
  lemma {:induction false} FilterAppend<T(!new)>(a: seq<T>, b: seq<T>, keep: T -> bool)
    ensures Filter(a + b, keep) == Filter(a, keep) + Filter(b, keep)
    decreases |a|
  {
    if a == [] {
      assert a + b == b;
    } else {
      assert (a + b)[0] == a[0] && (a + b)[1..] == a[1..] + b;
      FilterAppend(a[1..], b, keep);
    }
  }

  /** The file list of `enumerate_scripts` keeps input order: enumerating a concatenation enumerates each part. */
  lemma FilesAppend(a: seq<FileEntry>, b: seq<FileEntry>)
    ensures SelectRuby(RejectDirectories(a + b)) == SelectRuby(RejectDirectories(a)) + SelectRuby(RejectDirectories(b))
  {
    FilterAppend(a, b, IsFile);
    FilterAppend(RejectDirectories(a), RejectDirectories(b), HasRubyExtension);
  }

  /**
   * The scripts are exactly the non-directory ".rb" entries, in input
   * order; each carries its file's data and the URL ROOT_URL + "/" + path.
   */
  lemma EnumeratedScripts(entries: seq<FileEntry>, uuid: nat -> string)
    ensures var files := SelectRuby(RejectDirectories(entries));
            var scripts := EnumerateScripts(entries, uuid);
            && (forall e :: e in files <==> e in entries && IsRubySource(e))
            && |scripts| == |files|
            && forall k :: 0 <= k < |scripts| ==>
                 && scripts[k].id == uuid(k)
                 && scripts[k].path == files[k].path
                 && scripts[k].absolutePath == files[k].absolutePath
                 && scripts[k].virtualUrl == RootUrl + "/" + files[k].path
                 && scripts[k].size == files[k].size
                 && scripts[k].lastModifiedTime == files[k].lastModifiedTime
  {
  }

  /** One directory or non-Ruby entry contributes nothing; one Ruby file contributes itself. */
  lemma EnumerateOne(e: FileEntry)
    ensures SelectRuby(RejectDirectories([e])) == if IsRubySource(e) then [e] else []
  {
    assert [e][1..] == [];
    var files := if IsFile(e) then [e] else [];
    assert RejectDirectories([e]) == files + Filter([], IsFile);
    if IsFile(e) {
      assert SelectRuby(files) == (if HasRubyExtension(e) then [e] else []) + Filter([], HasRubyExtension);
    }
  }

  /** The repository: the script list computed once, when it is built. */
  datatype Repository = Repository(scripts: seq<Script>)
  {
    /** `all` */
    function All(): seq<Script>
    {
      scripts
    }

    /** `find(args)` */
    function Find(args: seq<(string, AttributeValue)>): (r: Option<Script>)
      ensures r.Some? ==> r.value in All() && MatchesAll(r.value, args)
      ensures r.None? <==> forall k :: 0 <= k < |All()| ==> !MatchesAll(All()[k], args)
    {
      FindIn(scripts, args)
    }
  }

  /** `ScriptRepository.new` */
  function NewRepository(entries: seq<FileEntry>, uuid: nat -> string): (repo: Repository)
    ensures repo.All() == EnumerateScripts(entries, uuid)
  {
    Repository(EnumerateScripts(entries, uuid))
  }

  /** `find({})` is the first script, or `nil` when there is none. */
  lemma FindEmptyQuery(repo: Repository)
    ensures repo.Find([]) == if repo.All() == [] then None else Some(repo.All()[0])
  {
  }

  /** Asking for a key the scripts do not have with value `nil` matches every script. */
  lemma FindUnknownKeyNil(repo: Repository, key: string)
    requires key !in {"id", "path", "absolute_path", "virtual_url", "size", "last_modified_time"}
    ensures repo.Find([(key, NilValue)]) == if repo.All() == [] then None else Some(repo.All()[0])
  {
    if repo.All() != [] {
      assert MatchesAll(repo.All()[0], [(key, NilValue)]);
    }
  }

  /** Looking up a script by its own id finds it when ids are distinct. */
  lemma FindById(repo: Repository, k: nat)
    requires k < |repo.All()|
    requires forall i, j :: 0 <= i < j < |repo.All()| ==> repo.All()[i].id != repo.All()[j].id
    ensures repo.Find([("id", Text(repo.All()[k].id))]) == Some(repo.All()[k])
  {
    var s := repo.All();
    var args := [("id", Text(s[k].id))];
    assert MatchesAll(s[k], args);
    var r := repo.Find(args);
    var m :| 0 <= m < |s| && s[m] == r.value && MatchesAll(s[m], args) && forall j :: 0 <= j < m ==> !MatchesAll(s[j], args);
    assert Attribute(s[m], args[0].0) == args[0].1;
    assert s[m].id == s[k].id;
  }
}
