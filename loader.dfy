/**
 * The directory filter of generate: which entries of the test directory are read
 * as test files, and in which order.
 */
module Loader {

  /** One entry of the directory listing. */
  datatype DirEntry = DirEntry(name: string, isDir: bool)

  /** path.Ext: the suffix from the last dot of the final slash-separated element, or "" when it has none. */
  function Ext(path: string): (r: string)
    ensures r == [] || (r[0] == '.' && |r| <= |path| && r == path[|path| - |r|..])
    ensures '/' !in r
  {
    if path == [] then ""
    else
      var c := path[|path| - 1];
      if c == '/' then ""
      else if c == '.' then "."
      else
        var e := Ext(path[..|path| - 1]);
        if e == "" then "" else e + [c]
  }

  predicate HasSuffix(s: string, suffix: string) {
    |suffix| <= |s| && s[|s| - |suffix|..] == suffix
  }

  /** For the test-file extension, asking path.Ext is the same as asking for the suffix. */
  lemma {:induction false} ExtIsYml(path: string)
    ensures Ext(path) == ".yml" <==> HasSuffix(path, ".yml")
  {
    if HasSuffix(path, ".yml") {
      var n := |path|;
      var a, b, c := path[..n - 3], path[..n - 2], path[..n - 1];
      assert a[|a| - 1] == '.';
      assert Ext(a) == ".";
      assert b[..|b| - 1] == a && b[|b| - 1] == 'y';
      assert Ext(b) == ".y";
      assert c[..|c| - 1] == b && c[|c| - 1] == 'm';
      assert Ext(c) == ".ym";
      assert path[..n - 1] == c && path[n - 1] == 'l';
    }
  }

  /** An entry generate reads: a plain file whose extension is .yml. */
  predicate IsTestFile(e: DirEntry) {
    !e.isDir && Ext(e.name) == ".yml"
  }

  /** The names generate passes to generateFromFile, in listing order. */
  function TestFiles(entries: seq<DirEntry>): (names: seq<string>)
    ensures |names| <= |entries|
    ensures forall n :: n in names <==> exists e :: e in entries && IsTestFile(e) && e.name == n
  {
    if entries == [] then []
    else
      var rest := TestFiles(entries[..|entries| - 1]);
      var e := entries[|entries| - 1];
      assert forall x :: x in entries <==> x in entries[..|entries| - 1] || x == e;
      if IsTestFile(e) then rest + [e.name] else rest
  }

  /** Listing order is kept: the names of the test files among a listing's prefix come first. */
  lemma {:induction false} TestFilesAppend(a: seq<DirEntry>, b: seq<DirEntry>)
    ensures TestFiles(a + b) == TestFiles(a) + TestFiles(b)
    decreases |b|
  {
    if b == [] {
      assert a + b == a;
    } else {
      assert (a + b)[..|a + b| - 1] == a + b[..|b| - 1];
      TestFilesAppend(a, b[..|b| - 1]);
    }
  }

  /** Filtering one more entry of the listing. */
  lemma TestFilesStep(entries: seq<DirEntry>, i: nat)
    requires i < |entries|
    ensures TestFiles(entries[..i + 1]) ==
              TestFiles(entries[..i]) + if IsTestFile(entries[i]) then [entries[i].name] else []
  {
    assert entries[..i + 1][..i] == entries[..i];
  }
}
