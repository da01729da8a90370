/** Display names of the blob connector: the bare file name, or the path below the prefix if it is taken. */
module BlobNames {
  import opened Sequences

  datatype Object = Object(key: string, lastModified: int, size: Option<nat>, readable: bool)

  datatype Doc = Doc(key: string, name: string)

  datatype Window = Window(start: int, end: int)

  predicate EndsWithSlash(s: string) {
    s != "" && s[|s| - 1] == '/'
  }

  function NormalPrefix(prefix: string): (r: string)
    ensures r == "" || EndsWithSlash(r)
  {
    if prefix == "" || EndsWithSlash(prefix) then prefix else prefix + "/"
  }

  /** What follows the last slash. */
  function Basename(key: string): (r: string)
    ensures '/' !in r
  {
    if key == "" || EndsWithSlash(key) then "" else Basename(key[..|key| - 1]) + [key[|key| - 1]]
  }

  /** Every slash becomes " / ". */
  function Spaced(path: string): string {
    if path == "" then "" else (if path[0] == '/' then " / " else [path[0]]) + Spaced(path[1..])
  }

  function RelativePath(prefix: string, key: string): string {
    if prefix <= key then key[|prefix|..] else key
  }

  function NamesOf(objects: seq<Object>): seq<string> {
    seq(|objects|, i requires 0 <= i < |objects| => Basename(objects[i].key))
  }

  function NameFor(prefix: string, objects: seq<Object>, key: string): string {
    var fileName := Basename(key);
    var path := RelativePath(prefix, key);
    if multiset(NamesOf(objects))[fileName] > 1 && path != "" then Spaced(path) else fileName
  }

  function IsListed(w: Window): Object -> bool {
    (o: Object) => !EndsWithSlash(o.key) && w.start < o.lastModified <= w.end
  }

  predicate Keeps(threshold: Option<nat>, o: Object) {
    o.readable && !(threshold.Some? && o.size.Some? && o.size.value > threshold.value)
  }

  function IsKept(threshold: Option<nat>): Object -> bool {
    (o: Object) => Keeps(threshold, o)
  }

  /** The names are counted over everything in the window, whether or not it can then be downloaded. */
  function Docs(prefix: string, listed: seq<Object>, kept: seq<Object>): seq<Doc> {
    seq(|kept|, i requires 0 <= i < |kept| => Doc(kept[i].key, NameFor(prefix, listed, kept[i].key)))
  }

  function DocsOf(prefix: string, threshold: Option<nat>, listed: seq<Object>): seq<Doc> {
    Docs(prefix, listed, Filter(IsKept(threshold), listed))
  }

  /** All batches passed on are full, and the pending one is not. */
  predicate IsFull(size: nat, batches: seq<seq<Doc>>, pending: seq<Doc>) {
    size > 0 ==> |pending| < size && forall b :: b in batches ==> |b| == size
  }

  /** `counts` says how often each base name occurs. */
  ghost predicate Counts(counts: map<string, nat>, objects: seq<Object>) {
    forall name :: (if name in counts then counts[name] else 0) == multiset(NamesOf(objects))[name]
  }

  class BlobConnector {
    const prefix: string
    const batchSize: nat
    const sizeThreshold: Option<nat>

    constructor (prefix: string, batchSize: nat, sizeThreshold: Option<nat>)
      ensures this.prefix == if prefix != "" && prefix[|prefix| - 1] != '/' then prefix + "/" else prefix
      ensures this.batchSize == batchSize && this.sizeThreshold == sizeThreshold
    {
      this.prefix := NormalPrefix(prefix);
      this.batchSize := batchSize;
      this.sizeThreshold := sizeThreshold;
    }

    method CountNames(objects: seq<Object>) returns (counts: map<string, nat>)
      ensures Counts(counts, objects)
    {
      counts := map[];
      for i := 0 to |objects|
        invariant Counts(counts, objects[..i])
      {
        assert NamesOf(objects[..i + 1]) == NamesOf(objects[..i]) + [Basename(objects[i].key)];
        var name := Basename(objects[i].key);
        counts := counts[name := (if name in counts then counts[name] else 0) + 1];
      }
      assert objects[..|objects|] == objects;
    }

    method ListObjects(contents: seq<Object>, w: Window) returns (objects: seq<Object>)
      ensures objects == Filter(IsListed(w), contents)
    {
      objects := [];
      for i := 0 to |contents|
        invariant objects == Filter(IsListed(w), contents[..i])
      {
        assert contents[..i + 1] == contents[..i] + [contents[i]];
        FilterSnoc(IsListed(w), contents[..i], contents[i]);
        var o := contents[i];
        if EndsWithSlash(o.key) {
          continue;
        }
        if w.start < o.lastModified <= w.end {
          objects := objects + [o];
        }
      }
      assert contents[..|contents|] == contents;
    }

    method DisplayName(ghost objects: seq<Object>, counts: map<string, nat>, key: string) returns (name: string)
      requires Counts(counts, objects)
      ensures name == NameFor(prefix, objects, key)
    {
      var fileName := Basename(key);
      if fileName in counts && counts[fileName] > 1 {
        var path := key;
        if prefix != "" && prefix <= key {
          path := key[|prefix|..];
        }
        name := if path != "" then Spaced(path) else fileName;
      } else {
        name := fileName;
      }
    }

    /** One document more, in a batch that is passed on once it is full. */
    method AddDoc(batches: seq<seq<Doc>>, batch: seq<Doc>, doc: Doc) returns (full: seq<seq<Doc>>, pending: seq<Doc>)
      requires IsFull(batchSize, batches, batch)
      ensures IsFull(batchSize, full, pending) && Flatten(full) + pending == Flatten(batches) + batch + [doc]
    {
      full, pending := batches, batch + [doc];
      if |pending| == batchSize {
        FlattenSnoc(full, pending);
        full, pending := full + [pending], [];
      }
    }

    /** The documents of the objects in the window that can be read, in order, in full batches but the last. */
    method YieldBlobObjects(contents: seq<Object>, w: Window) returns (batches: seq<seq<Doc>>)
      ensures Flatten(batches) == DocsOf(prefix, sizeThreshold, Filter(IsListed(w), contents))
      ensures batchSize > 0 ==>
                forall i :: 0 <= i < |batches| ==>
                  0 < |batches[i]| <= batchSize && (i < |batches| - 1 ==> |batches[i]| == batchSize)
    {
      hide Counts, NameFor, Flatten, Filter, Docs, DocsOf, DocsUpTo, IsKept, IsListed, NamesOf, Basename;
      var objects := ListObjects(contents, w);
      var counts := CountNames(objects);
      batches := [];
      var batch: seq<Doc> := [];
      DocsEnds(prefix, objects, sizeThreshold);
      for i := 0 to |objects|
        invariant Flatten(batches) + batch == DocsUpTo(prefix, objects, sizeThreshold, i)
        invariant IsFull(batchSize, batches, batch)
      {
        DocsStep(prefix, objects, sizeThreshold, i);
        var o := objects[i];
        if sizeThreshold.Some? && o.size.Some? && o.size.value > sizeThreshold.value {
          continue;
        }
        if !o.readable {
          continue;
        }
        var name := DisplayName(objects, counts, o.key);
        batches, batch := AddDoc(batches, batch, Doc(o.key, name));
      }
      if batch != [] {
        FlattenSnoc(batches, batch);
        batches := batches + [batch];
      }
    }
  }

  /** The documents of the first `i` objects. */
  function DocsUpTo(prefix: string, objects: seq<Object>, threshold: Option<nat>, i: nat): seq<Doc>
    requires i <= |objects|
  {
    Docs(prefix, objects, Filter(IsKept(threshold), objects[..i]))
  }

  lemma DocsEnds(prefix: string, objects: seq<Object>, threshold: Option<nat>)
    ensures DocsUpTo(prefix, objects, threshold, 0) == [] && Flatten<Doc>([]) == []
    ensures DocsUpTo(prefix, objects, threshold, |objects|) == DocsOf(prefix, threshold, objects)
  {
    assert objects[..|objects|] == objects;
  }

  lemma DocsStep(prefix: string, objects: seq<Object>, threshold: Option<nat>, i: nat)
    requires i < |objects|
    ensures var o := objects[i];
            DocsUpTo(prefix, objects, threshold, i + 1)
            == DocsUpTo(prefix, objects, threshold, i)
               + if Keeps(threshold, o) then [Doc(o.key, NameFor(prefix, objects, o.key))] else []
  {
    hide NameFor;
    assert objects[..i + 1] == objects[..i] + [objects[i]];
    FilterSnoc(IsKept(threshold), objects[..i], objects[i]);
  }

  // ---------------------------------------------------------------- no collisions

  lemma {:induction false} BasenameBelow(prefix: string, path: string)
    requires prefix == "" || EndsWithSlash(prefix)
    ensures Basename(prefix + path) == Basename(path)
  {
    if path == "" {
      assert prefix + path == prefix;
    } else {
      var n := |path| - 1;
      assert (prefix + path)[..|prefix + path| - 1] == prefix + path[..n];
      BasenameBelow(prefix, path[..n]);
    }
  }

  lemma {:induction false} BasenameFlat(path: string)
    requires '/' !in path
    ensures Basename(path) == path
  {
    if path != "" {
      var n := |path| - 1;
      assert path == path[..n] + [path[n]] && path[n] in path;
      BasenameFlat(path[..n]);
    }
  }

  lemma {:induction false} SpacedSlashes(path: string)
    ensures '/' in Spaced(path) <==> '/' in path
    ensures '/' !in path ==> Spaced(path) == path
    ensures Spaced(path) != "" ==> Spaced(path)[0] != '/'
    ensures |Spaced(path)| >= |path|
  {
    if path != "" {
      assert path == [path[0]] + path[1..];
      assert " / "[1] == '/';
      SpacedSlashes(path[1..]);
    }
  }

  /** Spacing the slashes can be undone. */
  lemma {:induction false} SpacedInjective(a: string, b: string)
    requires Spaced(a) == Spaced(b)
    ensures a == b
  {
    SpacedSlashes(a);
    SpacedSlashes(b);
    if a != "" && b != "" {
      SpacedSlashes(a[1..]);
      SpacedSlashes(b[1..]);
      SpacedHead(a);
      SpacedHead(b);
      SpacedInjective(a[1..], b[1..]);
      assert a == [a[0]] + a[1..] && b == [b[0]] + b[1..];
    }
  }

  /** The first character can be read off: a slash shows as a space followed by a slash. */
  lemma SpacedHead(s: string)
    requires s != ""
    ensures var r := Spaced(s);
            var head := if |r| > 1 && r[1] == '/' && r[0] == ' ' then '/' else r[0];
            s[0] == head && Spaced(s[1..]) == r[if head == '/' then 3 else 1..]
  {
    SpacedSlashes(s[1..]);
    var r := Spaced(s);
    var rest := Spaced(s[1..]);
    if s[0] == '/' {
      assert r == " / " + rest && r[1] == '/' && r[0] == ' ';
      assert r[3..] == rest;
    } else {
      assert r == [s[0]] + rest && r[1..] == rest;
      assert |r| > 1 ==> r[1] == rest[0];
    }
  }

  lemma TwoOfAName(objects: seq<Object>, i: nat, j: nat)
    requires i < j < |objects| && Basename(objects[i].key) == Basename(objects[j].key)
    ensures multiset(NamesOf(objects))[Basename(objects[i].key)] > 1
  {
    var names := NamesOf(objects);
    assert names == names[..j] + names[j..];
    assert names[i] in names[..j] && names[j] in names[j..];
    assert multiset(names) == multiset(names[..j]) + multiset(names[j..]);
  }

  ghost predicate DistinctKeys(objects: seq<Object>) {
    forall i, j :: 0 <= i < j < |objects| ==> objects[i].key != objects[j].key
  }

  /** A key's name is its base name, or spells out a path with slashes. */
  lemma NameShows(prefix: string, objects: seq<Object>, key: string)
    requires (prefix == "" || EndsWithSlash(prefix)) && prefix <= key && !EndsWithSlash(key)
    ensures var name := NameFor(prefix, objects, key);
            && (name == Basename(key) || name == Spaced(RelativePath(prefix, key)))
            && ('/' !in name ==> name == Basename(key))
            && (multiset(NamesOf(objects))[Basename(key)] > 1 ==> name == Spaced(RelativePath(prefix, key)))
  {
    var path := RelativePath(prefix, key);
    assert key == prefix + path;
    BasenameBelow(prefix, path);
    SpacedSlashes(path);
    if '/' !in path {
      BasenameFlat(path);
    }
  }

  /** Different keys below the prefix get different names. */
  lemma NamesNeverCollide(prefix: string, objects: seq<Object>, i: nat, j: nat)
    requires prefix == "" || EndsWithSlash(prefix)
    requires DistinctKeys(objects) && forall o :: o in objects ==> prefix <= o.key && !EndsWithSlash(o.key)
    requires i < j < |objects|
    ensures NameFor(prefix, objects, objects[i].key) != NameFor(prefix, objects, objects[j].key)
  {
    var a, b := objects[i].key, objects[j].key;
    assert objects[i] in objects && objects[j] in objects;
    assert a == prefix + RelativePath(prefix, a) && b == prefix + RelativePath(prefix, b);
    if NameFor(prefix, objects, a) == NameFor(prefix, objects, b) {
      NameShows(prefix, objects, a);
      NameShows(prefix, objects, b);
      var pathA, pathB := RelativePath(prefix, a), RelativePath(prefix, b);
      if '/' in NameFor(prefix, objects, a) {
        SpacedInjective(pathA, pathB);
      } else {
        TwoOfAName(objects, i, j);
        SpacedInjective(pathA, pathB);
      }
    }
  }

  /** So do the documents of one fetch. */
  lemma ShownNamesDistinct(prefix: string, threshold: Option<nat>, listed: seq<Object>, i: nat, j: nat)
    requires prefix == "" || EndsWithSlash(prefix)
    requires DistinctKeys(listed) && forall o :: o in listed ==> prefix <= o.key && !EndsWithSlash(o.key)
    requires i < j < |DocsOf(prefix, threshold, listed)|
    ensures DocsOf(prefix, threshold, listed)[i].name != DocsOf(prefix, threshold, listed)[j].name
  {
    hide NameFor;
    var kept := Filter(IsKept(threshold), listed);
    assert Distinct(listed) by {
      forall i, j | 0 <= i < j < |listed| ensures listed[i] != listed[j] {
        assert listed[i].key != listed[j].key;
      }
    }
    FilterMembers(IsKept(threshold), listed);
    FilterDistinct(IsKept(threshold), listed);
    assert kept[i] in listed && kept[j] in listed;
    var a :| 0 <= a < |listed| && listed[a] == kept[i];
    var b :| 0 <= b < |listed| && listed[b] == kept[j];
    if a < b {
      NamesNeverCollide(prefix, listed, a, b);
    } else {
      NamesNeverCollide(prefix, listed, b, a);
    }
  }

  lemma BasenameAfter(dir: string, file: string)
    requires (dir == "" || EndsWithSlash(dir)) && '/' !in file
    ensures Basename(dir + file) == file
  {
    BasenameBelow(dir, file);
    BasenameFlat(file);
  }

  /** Without the slash that the constructor adds to the prefix, names can collide: here "abc" shares its base
      name with "ab/abc" and is left with "c", which "ab/c" is called too. */
  lemma BarePrefixCollides(objects: seq<Object>)
    requires |objects| == 3
    requires objects[0].key == "ab" + "c" && objects[1].key == "ab/" + "abc" && objects[2].key == "ab/" + "c"
    ensures NameFor("ab", objects, objects[0].key) == NameFor("ab", objects, objects[2].key)
  {
    BasenameAfter("", "abc");
    BasenameAfter("ab/", "abc");
    BasenameAfter("ab/", "c");
    SpacedSlashes("c");
    hide Basename, Spaced;
    assert "" + "abc" == "ab" + "c";
    assert NamesOf(objects) == ["abc", "abc", "c"];
    assert RelativePath("ab", objects[0].key) == "c";
    assert multiset(["abc", "abc", "c"])["abc"] == 2 && multiset(["abc", "abc", "c"])["c"] == 1;
  }

  // ---------------------------------------------------------------- what is shown

  /** The object is listed and read: no directory marker, in the window, readable, and not known to be too large. */
  ghost predicate IsShown(w: Window, threshold: Option<nat>, o: Object) {
    && (o.key == "" || o.key[|o.key| - 1] != '/') && w.start < o.lastModified && o.lastModified <= w.end
    && o.readable && (threshold == None || o.size == None || o.size.value <= threshold.value)
  }

  ghost function Shown(w: Window, threshold: Option<nat>): Object -> bool {
    (o: Object) => IsShown(w, threshold, o)
  }

  /** One fetch shows exactly these objects, in order, each under its key. */
  lemma ShownObjects(prefix: string, threshold: Option<nat>, w: Window, contents: seq<Object>)
    ensures var docs := DocsOf(prefix, threshold, Filter(IsListed(w), contents));
            var shown := Filter(Shown(w, threshold), contents);
            |docs| == |shown| && forall i :: 0 <= i < |docs| ==> docs[i].key == shown[i].key
  {
    FilterTwice(IsListed(w), IsKept(threshold), Shown(w, threshold), contents);
    hide Filter, NameFor;
  }

  /** What follows the last slash of the key is `file`. */
  ghost predicate IsFileOf(key: string, file: string) {
    && |file| <= |key| && key[|key| - |file|..] == file && '/' !in file
    && (|file| < |key| ==> key[|key| - |file| - 1] == '/')
  }

  lemma {:induction false} BasenameSplit(key: string) returns (dir: string)
    ensures key == dir + Basename(key) && (dir == "" || EndsWithSlash(dir))
  {
    if key == "" || EndsWithSlash(key) {
      dir := key;
      assert key + "" == key;
    } else {
      var n := |key| - 1;
      dir := BasenameSplit(key[..n]);
      AppendLast(key, dir, Basename(key[..n]));
    }
  }

  lemma AppendLast(key: string, dir: string, file: string)
    requires key != "" && key[..|key| - 1] == dir + file
    ensures key == dir + (file + [key[|key| - 1]])
  {
  }

  lemma BasenameIs(key: string)
    ensures IsFileOf(key, Basename(key))
  {
    var dir := BasenameSplit(key);
    var file := Basename(key);
    assert key[|dir|..] == file;
    if dir != "" {
      assert key[|dir| - 1] == dir[|dir| - 1];
    }
    hide Basename;
  }

  lemma FileIsBasename(key: string, file: string)
    requires IsFileOf(key, file)
    ensures Basename(key) == file
  {
    var dir := key[..|key| - |file|];
    assert key == dir + file;
    BasenameAfter(dir, file);
  }

  /** The name of an object of the window: the file's own if no other object's file has it, else the path below the
      prefix with its slashes spaced. */
  lemma NameMeaning(prefix: string, objects: seq<Object>, i: nat, name: string)
    requires (prefix == "" || EndsWithSlash(prefix)) && i < |objects|
    requires prefix <= objects[i].key && !EndsWithSlash(objects[i].key)
    requires name == NameFor(prefix, objects, objects[i].key)
    ensures (forall j, file :: 0 <= j < |objects| && j != i && IsFileOf(objects[i].key, file) ==>
               !IsFileOf(objects[j].key, file)) ==> IsFileOf(objects[i].key, name)
    ensures (exists j, file :: 0 <= j < |objects| && j != i && IsFileOf(objects[i].key, file)
                               && IsFileOf(objects[j].key, file)) ==> name == Spaced(objects[i].key[|prefix|..])
  {
    hide NameFor, Basename, Spaced, IsFileOf;
    var key := objects[i].key;
    NameShows(prefix, objects, key);
    BasenameIs(key);
    if j, file :| 0 <= j < |objects| && j != i && IsFileOf(key, file) && IsFileOf(objects[j].key, file) {
      FileIsBasename(key, file);
      FileIsBasename(objects[j].key, file);
      TwoOfAName(objects, if i < j then i else j, if i < j then j else i);
    } else {
      forall j | 0 <= j < |objects| && j != i ensures Basename(objects[j].key) != Basename(key) {
        BasenameIs(objects[j].key);
      }
      OneOfAName(objects, i);
      NameOfOne(prefix, objects, key);
    }
  }

  lemma NameOfOne(prefix: string, objects: seq<Object>, key: string)
    requires multiset(NamesOf(objects))[Basename(key)] <= 1
    ensures NameFor(prefix, objects, key) == Basename(key)
  {
  }

  lemma OneOfAName(objects: seq<Object>, i: nat)
    requires i < |objects|
    requires forall j :: 0 <= j < |objects| && j != i ==> Basename(objects[j].key) != Basename(objects[i].key)
    ensures multiset(NamesOf(objects))[Basename(objects[i].key)] == 1
  {
    hide Basename;
    var names := NamesOf(objects);
    var name := names[i];
    assert names == names[..i] + [names[i]] + names[i + 1..];
    forall j | 0 <= j < |names| && j != i ensures names[j] != name {
      assert names[j] == Basename(objects[j].key);
    }
    assert name !in names[..i] && name !in names[i + 1..];
    assert multiset(names) == multiset(names[..i]) + multiset([name]) + multiset(names[i + 1..]);
  }

  /** Spacing leaves everything as it is but the slashes. */
  lemma {:induction false} SpacedMeaning(a: string, b: string)
    ensures Spaced(a + "/" + b) == Spaced(a) + " / " + Spaced(b)
    ensures '/' !in a ==> Spaced(a) == a
  {
    SpacedSlashes(a);
    if a == "" {
      assert "" + "/" + b == "/" + b && ("/" + b)[1..] == b;
    } else {
      SpacedMeaning(a[1..], b);
      assert (a + "/" + b)[1..] == a[1..] + "/" + b;
      SpacedParts(a, b);
    }
  }

  lemma SpacedFirst(s: string)
    requires s != ""
    ensures Spaced(s) == (if s[0] == '/' then " / " else [s[0]]) + Spaced(s[1..])
  {
  }

  lemma Regrouped(head: string, a: string, middle: string, b: string)
    ensures head + (a + middle + b) == (head + a) + middle + b
  {
  }

  lemma SpacedParts(a: string, b: string)
    requires a != "" && Spaced(a[1..] + "/" + b) == Spaced(a[1..]) + " / " + Spaced(b)
    requires (a + "/" + b)[1..] == a[1..] + "/" + b
    ensures Spaced(a + "/" + b) == Spaced(a) + " / " + Spaced(b)
  {
    hide Spaced;
    var whole := a + "/" + b;
    SpacedFirst(whole);
    SpacedFirst(a);
    assert whole[0] == a[0];
    Regrouped(if a[0] == '/' then " / " else [a[0]], Spaced(a[1..]), " / ", Spaced(b));
  }
}
