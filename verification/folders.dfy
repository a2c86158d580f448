/** One directory of JSON record files, the shape every file store in the
    service shares. A directory is the list `os.ReadDir` returns: entries sorted
    by name, names unique. An entry is a sub-directory, a file that cannot be
    read or decoded, or a well-formed record. Reading, writing, listing and
    removing follow the file-system calls the stores make. */
module Folders {
  import opened Results
  import opened Text

  /** What sits under a name. `Garbled` is a file that `os.ReadFile` or
      `json.Unmarshal` refuses; the stores treat the two alike. */
  datatype Kind<T> = SubDir | Garbled | Record(value: T)

  datatype Entry<T> = Entry(name: string, kind: Kind<T>)

  /** Names strictly increasing: the `os.ReadDir` order, and hence unique. */
  ghost predicate Sorted<T>(es: seq<Entry<T>>) {
    forall i, j :: 0 <= i < j < |es| ==> Less(es[i].name, es[j].name)
  }

  type Dir<T> = es: seq<Entry<T>> | Sorted(es) witness []

  /** A directory, and whether listing it succeeds. */
  datatype Folder<T> = Folder(entries: Dir<T>, listable: bool)

  /** The file-name extension `filepath.Ext` must report for a listing to read a file. */
  predicate IsJson(name: string) { HasSuffix(name, ".json") }

  // ---------------------------------------------------------------------
  // Looking up, writing and removing one name
  // ---------------------------------------------------------------------

  /** What the directory holds under `name`, if anything. */
  function Find<T>(es: seq<Entry<T>>, name: string): (r: Option<Kind<T>>)
    ensures r.None? <==> forall i :: 0 <= i < |es| ==> es[i].name != name
    ensures r.Some? ==> exists i :: 0 <= i < |es| && es[i] == Entry(name, r.value)
  {
    if es == [] then None
    else if es[0].name == name then Some(es[0].kind)
    else Find(es[1..], name)
  }

  /** In a sorted directory an entry is what `Find` reports under its name. */
  lemma FindEntry<T>(es: seq<Entry<T>>, i: int)
    requires Sorted(es) && 0 <= i < |es|
    ensures Find(es, es[i].name) == Some(es[i].kind)
  {
    var r := Find(es, es[i].name);
    var j :| 0 <= j < |es| && es[j] == Entry(es[i].name, r.value);
    if j != i {
      if j < i { LessIrreflexive(es[i].name); } else { LessIrreflexive(es[j].name); }
    }
  }

  /** Writes `e`: overwrites the entry of the same name, or inserts `e` where
      the name order puts it. */
  function Put<T>(es: seq<Entry<T>>, e: Entry<T>): (r: seq<Entry<T>>)
    requires Sorted(es)
    ensures Sorted(r)
    ensures forall i :: 0 <= i < |r| ==> r[i] == e || r[i] in es
    ensures e in r
    ensures Find(r, e.name) == Some(e.kind)
    ensures forall n :: n != e.name ==> Find(r, n) == Find(es, n)
  {
    if es == [] then [e]
    else if es[0].name == e.name then
      PutSortedHead(es, e);
      [e] + es[1..]
    else if Less(e.name, es[0].name) then
      PutSortedFront(es, e);
      [e] + es
    else
      LessTotal(e.name, es[0].name);
      var rest := Put(es[1..], e);
      PutSortedTail(es, e, rest);
      [es[0]] + rest
  }

  /** A second write under the same name replaces the first one entirely. */
  lemma {:induction false} PutOverwrite<T>(es: seq<Entry<T>>, e1: Entry<T>, e2: Entry<T>)
    requires Sorted(es) && e1.name == e2.name
    ensures Put(Put(es, e1), e2) == Put(es, e2)
  {
    if es != [] && es[0].name != e1.name && !Less(e1.name, es[0].name) {
      var rest := Put(es[1..], e1);
      PutOverwrite(es[1..], e1, e2);
      assert ([es[0]] + rest)[0] == es[0];
      assert ([es[0]] + rest)[1..] == rest;
    }
  }

  lemma PutSortedHead<T>(es: seq<Entry<T>>, e: Entry<T>)
    requires Sorted(es) && |es| > 0 && es[0].name == e.name
    ensures Sorted([e] + es[1..])
  {
  }

  lemma PutSortedFront<T>(es: seq<Entry<T>>, e: Entry<T>)
    requires Sorted(es) && |es| > 0 && Less(e.name, es[0].name)
    ensures Sorted([e] + es)
  {
    forall j | 1 <= j < |es| {
      LessTransitive(e.name, es[0].name, es[j].name);
    }
  }

  lemma PutSortedTail<T>(es: seq<Entry<T>>, e: Entry<T>, rest: seq<Entry<T>>)
    requires Sorted(es) && |es| > 0 && Less(es[0].name, e.name)
    requires Sorted(rest)
    requires forall i :: 0 <= i < |rest| ==> rest[i] == e || rest[i] in es[1..]
    ensures Sorted([es[0]] + rest)
  {
    forall i | 0 <= i < |rest|
      ensures Less(es[0].name, rest[i].name)
    {
      if rest[i] != e {
        var k :| 0 <= k < |es[1..]| && es[1..][k] == rest[i];
        assert es[k + 1] == rest[i];
      }
    }
  }

  /** Removes the entry named `name`, if any. */
  function Drop<T>(es: seq<Entry<T>>, name: string): (r: seq<Entry<T>>)
    requires Sorted(es)
    ensures Sorted(r)
    ensures forall i :: 0 <= i < |r| ==> r[i] in es
    ensures Find(r, name) == None
    ensures forall n :: n != name ==> Find(r, n) == Find(es, n)
  {
    if es == [] then []
    else if es[0].name == name then
      LessIrreflexive(name);
      es[1..]
    else
      var rest := Drop(es[1..], name);
      DropSorted(es, rest);
      [es[0]] + rest
  }

  lemma DropSorted<T>(es: seq<Entry<T>>, rest: seq<Entry<T>>)
    requires Sorted(es) && |es| > 0 && Sorted(rest)
    requires forall i :: 0 <= i < |rest| ==> rest[i] in es[1..]
    ensures Sorted([es[0]] + rest)
  {
    forall i | 0 <= i < |rest|
      ensures Less(es[0].name, rest[i].name)
    {
      var k :| 0 <= k < |es[1..]| && es[1..][k] == rest[i];
      assert es[k + 1] == rest[i];
    }
  }

  // ---------------------------------------------------------------------
  // Listing
  // ---------------------------------------------------------------------

  /** The records a listing returns, in directory order: sub-directories,
      names without the `.json` extension and garbled files are skipped. */
  function Records<T>(es: seq<Entry<T>>): (r: seq<T>)
    ensures |r| <= |es|
  {
    if es == [] then [] else Listed(es[0]) + Records(es[1..])
  }

  /** What one entry contributes to a listing. */
  function Listed<T>(e: Entry<T>): (r: seq<T>)
    ensures |r| <= 1
  {
    if e.kind.Record? && IsJson(e.name) then [e.kind.value] else []
  }

  /** Exactly the well-formed `.json` records are listed. */
  lemma {:induction false} RecordsMembers<T>(es: seq<Entry<T>>, v: T)
    ensures v in Records(es) <==> exists i :: 0 <= i < |es| && es[i].kind == Record(v) && IsJson(es[i].name)
  {
    if es != [] {
      RecordsMembers(es[1..], v);
      assert forall i :: 1 <= i < |es| ==> es[i] == es[1..][i - 1];
    }
  }

  /** Listing a concatenation lists each part in turn. */
  lemma {:induction false} RecordsAppend<T>(a: seq<Entry<T>>, b: seq<Entry<T>>)
    ensures Records(a + b) == Records(a) + Records(b)
  {
    if a != [] {
      RecordsAppend(a[1..], b);
      TailOfAppend(a, b);
    } else {
      EmptyAppend(a, b);
    }
  }

  function Reverse<T>(s: seq<T>): (r: seq<T>)
    ensures |r| == |s|
    ensures forall i :: 0 <= i < |s| ==> r[i] == s[|s| - 1 - i]
  {
    if s == [] then [] else Reverse(s[1..]) + [s[0]]
  }

  /** The first `n` elements, all of them when there are fewer. */
  function Take<T>(s: seq<T>, n: int): (r: seq<T>)
    ensures |r| == if n <= 0 then 0 else if n < |s| then n else |s|
    ensures r == s[..|r|]
  {
    if n <= 0 then [] else if n < |s| then s[..n] else s
  }

  /** The backward walk of `GetMessages`: from the last entry towards the
      first, skipping what a listing skips, until `limit` records are found. */
  function Newest<T>(es: seq<Entry<T>>, limit: int): (r: seq<T>)
    ensures r == Take(Reverse(Records(es)), limit)
  {
    if |es| == 0 || limit <= 0 then []
    else
      var init := es[..|es| - 1];
      var last := es[|es| - 1];
      NewestUnfold(es, limit);
      if last.kind.Record? && IsJson(last.name) then [last.kind.value] + Newest(init, limit - 1)
      else Newest(init, limit)
  }

  /** The newest `limit` records are the last entry's, if it is listed,
      followed by the newest of the entries before it. */
  lemma NewestUnfold<T>(es: seq<Entry<T>>, limit: int)
    requires |es| > 0 && limit >= 1
    ensures var init, last := es[..|es| - 1], es[|es| - 1];
            Take(Reverse(Records(es)), limit) ==
              if last.kind.Record? && IsJson(last.name)
              then [last.kind.value] + Take(Reverse(Records(init)), limit - 1)
              else Take(Reverse(Records(init)), limit)
  {
    var init, last := es[..|es| - 1], es[|es| - 1];
    NewestStep(es);
    if last.kind.Record? && IsJson(last.name) {
      TakeCons(last.kind.value, Reverse(Records(init)), limit);
    } else {
      assert Listed(last) == [];
      assert Reverse(Records(es)) == Reverse(Records(init));
    }
  }

  /** Taking from a list with a known head. */
  lemma TakeCons<T>(v: T, s: seq<T>, n: int)
    requires n >= 1
    ensures Take([v] + s, n) == [v] + Take(s, n - 1)
  {
    if n - 1 < |s| {
      assert ([v] + s)[..n] == [v] + s[..n - 1];
    }
  }

  /** Peeling the last entry off a listing. */
  lemma NewestStep<T>(es: seq<Entry<T>>)
    requires |es| > 0
    ensures Reverse(Records(es)) == Listed(es[|es| - 1]) + Reverse(Records(es[..|es| - 1]))
  {
    var init, last := es[..|es| - 1], es[|es| - 1];
    calc {
      Reverse(Records(es));
      { SplitLast(es); }
      Reverse(Records(init + [last]));
      { RecordsAppend(init, [last]); RecordsSingle(last); }
      Reverse(Records(init) + Listed(last));
      { ReverseAppend(Records(init), Listed(last)); }
      Reverse(Listed(last)) + Reverse(Records(init));
      { ReverseShort(Listed(last)); }
      Listed(last) + Reverse(Records(init));
    }
  }

  lemma RecordsSingle<T>(e: Entry<T>)
    ensures Records([e]) == Listed(e)
  {
    assert [e][1..] == [];
  }

  lemma ReverseShort<T>(s: seq<T>)
    requires |s| <= 1
    ensures Reverse(s) == s
  {
    if |s| == 1 {
      assert s[1..] == [];
    }
  }

  lemma ReverseAppend<T>(a: seq<T>, b: seq<T>)
    ensures Reverse(a + b) == Reverse(b) + Reverse(a)
  {
  }

  // ---------------------------------------------------------------------
  // The store operations on one directory
  // ---------------------------------------------------------------------

  /** `os.ReadFile` then `json.Unmarshal` of one named file. */
  function Load<T>(f: Folder<T>, name: string): (r: Result<T>)
    ensures r == Err(NotFound) <==> Find(f.entries, name).None?
    ensures r.Ok? <==> Find(f.entries, name).Some? && Find(f.entries, name).value.Record?
    ensures r.Ok? ==> Find(f.entries, name) == Some(Record(r.value))
    ensures r.Err? && r.error != NotFound ==> r.error == ReadFailed || r.error == Corrupt
  {
    match Find(f.entries, name)
    case None => Err(NotFound)
    case Some(SubDir) => Err(ReadFailed)
    case Some(Garbled) => Err(Corrupt)
    case Some(Record(v)) => Ok(v)
  }

  /** `json.MarshalIndent` then `os.WriteFile` under `name`. The write fails
      when the file system refuses it (`fault`) or a directory holds the name. */
  function Save<T>(f: Folder<T>, name: string, v: T, fault: bool): (r: Result<Folder<T>>)
    ensures r.Ok? <==> !fault && Find(f.entries, name) != Some(SubDir)
    ensures r.Err? ==> r.error == WriteFailed
    ensures r.Ok? ==> Load(r.value, name) == Ok(v)
    ensures r.Ok? ==> forall n :: n != name ==> Find(r.value.entries, n) == Find(f.entries, n)
    ensures r.Ok? ==> r.value.listable == f.listable
  {
    if fault || Find(f.entries, name) == Some(SubDir) then Err(WriteFailed)
    else Ok(Folder(Put(f.entries, Entry(name, Record(v))), f.listable))
  }

  /** `os.ReadDir` then read every entry, skipping what cannot be read. */
  function List<T(!new)>(f: Folder<T>): (r: Result<seq<T>>)
    ensures r.Err? <==> !f.listable
    ensures r.Err? ==> r.error == ListFailed
    ensures r.Ok? ==> forall v :: v in r.value <==>
      exists i :: 0 <= i < |f.entries| && f.entries[i].kind == Record(v) && IsJson(f.entries[i].name)
  {
    if !f.listable then Err(ListFailed)
    else
      assert forall v :: v in Records(f.entries) <==>
        exists i :: 0 <= i < |f.entries| && f.entries[i].kind == Record(v) && IsJson(f.entries[i].name) by {
        forall v { RecordsMembers(f.entries, v); }
      }
      Ok(Records(f.entries))
  }

  /** `os.Remove` of one named file: an absent name is an error, not a no-op. */
  function Delete<T>(f: Folder<T>, name: string, fault: bool): (r: Result<Folder<T>>)
    ensures r.Ok? <==> !fault && Find(f.entries, name).Some?
    ensures r.Err? && !fault ==> r.error == NotFound
    ensures r.Ok? ==> Load(r.value, name) == Err(NotFound)
    ensures r.Ok? ==> forall n :: n != name ==> Find(r.value.entries, n) == Find(f.entries, n)
  {
    if fault then Err(WriteFailed)
    else if Find(f.entries, name).None? then Err(NotFound)
    else Ok(Folder(Drop(f.entries, name), f.listable))
  }
}
