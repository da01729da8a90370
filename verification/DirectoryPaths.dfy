/** The directories that lie above a file's path. */
module DirectoryPaths {
  import opened Sequences

  /** Backslashes read as slashes. */
  function Normal(uri: string): (r: string)
    ensures |r| == |uri| && '\\' !in r
  {
    if uri == "" then "" else Normal(uri[..|uri| - 1]) + [if uri[|uri| - 1] == '\\' then '/' else uri[|uri| - 1]]
  }

  /** What stands before the last slash; the whole text if there is none. */
  function Parent(u: string): (r: string)
    ensures r <= u
  {
    if '/' !in u then u else BeforeLastSlash(u)
  }

  function BeforeLastSlash(u: string): (r: string)
    ensures r <= u
  {
    if u == "" then "" else if u[|u| - 1] == '/' then u[..|u| - 1] else BeforeLastSlash(u[..|u| - 1])
  }

  /** The pieces between slashes, some of which may be empty. */
  function Pieces(p: string): (r: seq<string>)
    ensures r != []
  {
    if p == "" then [""]
    else
      var n := |p| - 1;
      var rest := Pieces(p[..n]);
      if p[n] == '/' then rest + [""] else rest[..|rest| - 1] + [rest[|rest| - 1] + [p[n]]]
  }

  function IsPiece(): string -> bool {
    (p: string) => p != ""
  }

  /** The names along a path, without the empty pieces. */
  function SegmentsOf(u: string): seq<string> {
    Filter(IsPiece(), Pieces(u))
  }

  /** The path made of the given pieces. */
  function Uri(pieces: seq<string>): string {
    if pieces == [] then "" else Uri(pieces[..|pieces| - 1]) + "/" + pieces[|pieces| - 1]
  }

  /** The paths of all non-empty prefixes, the shortest first. */
  function Uris(pieces: seq<string>): (r: seq<string>)
    ensures |r| == |pieces|
    ensures forall i :: 0 <= i < |r| ==> r[i] == Uri(pieces[..i + 1])
  {
    seq(|pieces|, i requires 0 <= i < |pieces| => Uri(pieces[..i + 1]))
  }

  function Above(uri: string): seq<string> {
    Uris(SegmentsOf(Parent(Normal(uri))))
  }

  method AncestorDirs(fileUri: string) returns (dirs: seq<string>)
    ensures dirs == Above(fileUri)
  {
    var pieces := Pieces(Parent(Normal(fileUri)));
    ghost var segments: seq<string> := [];
    var current := "";
    dirs := [];
    for i := 0 to |pieces|
      invariant segments == Filter(IsPiece(), pieces[..i])
      invariant current == Uri(segments) && dirs == Uris(segments)
    {
      assert pieces[..i + 1] == pieces[..i] + [pieces[i]];
      FilterSnoc(IsPiece(), pieces[..i], pieces[i]);
      if pieces[i] != "" {
        current := current + "/" + pieces[i];
        UrisSnoc(segments, pieces[i]);
        segments := segments + [pieces[i]];
        dirs := dirs + [current];
      }
    }
    assert pieces[..|pieces|] == pieces;
  }

  lemma UrisSnoc(segments: seq<string>, piece: string)
    ensures Uri(segments + [piece]) == Uri(segments) + "/" + piece
    ensures Uris(segments + [piece]) == Uris(segments) + [Uri(segments + [piece])]
  {
    var more := segments + [piece];
    assert more[..|segments|] == segments && more[..|more|] == more;
    UrisPrefix(more, |segments|);
  }

  lemma UrisPrefix(segments: seq<string>, k: nat)
    requires k <= |segments|
    ensures Uris(segments[..k]) == Uris(segments)[..k]
  {
    forall i | 0 <= i < k ensures Uris(segments[..k])[i] == Uris(segments)[i] {
      assert segments[..k][..i + 1] == segments[..i + 1];
    }
  }

  // ---------------------------------------------------------------- clean paths

  predicate IsSegment(s: string) {
    s != "" && '/' !in s && '\\' !in s
  }

  ghost predicate AreSegments(segments: seq<string>) {
    forall s :: s in segments ==> IsSegment(s)
  }

  lemma {:induction false} PiecesAfterSlash(a: string, b: string)
    requires '/' !in b
    ensures Pieces(a + "/" + b) == Pieces(a) + [b]
  {
    var whole := a + "/" + b;
    if b == "" {
      assert whole[..|whole| - 1] == a;
    } else {
      var n := |b| - 1;
      assert whole[..|whole| - 1] == a + "/" + b[..n];
      assert b == b[..n] + [b[n]] && b[n] in b;
      PiecesAfterSlash(a, b[..n]);
    }
  }

  lemma {:induction false} ParentAfterSlash(a: string, b: string)
    requires '/' !in b
    ensures Parent(a + "/" + b) == a
  {
    var whole := a + "/" + b;
    assert whole[|a|] == '/';
    BeforeSlash(a, b);
  }

  lemma {:induction false} BeforeSlash(a: string, b: string)
    requires '/' !in b
    ensures BeforeLastSlash(a + "/" + b) == a
  {
    var whole := a + "/" + b;
    if b == "" {
      assert whole[..|whole| - 1] == a;
    } else {
      var n := |b| - 1;
      assert whole[..|whole| - 1] == a + "/" + b[..n];
      assert whole[|whole| - 1] == b[n] && b[n] in b;
      BeforeSlash(a, b[..n]);
    }
  }

  lemma {:induction false} SegmentsOfUri(segments: seq<string>)
    requires AreSegments(segments)
    ensures Filter(IsPiece(), Pieces(Uri(segments))) == segments
    ensures '\\' !in Uri(segments)
  {
    if segments == [] {
      assert [""][..0] == [];
    } else {
      var n := |segments| - 1;
      assert segments == segments[..n] + [segments[n]] && segments[n] in segments;
      SegmentsOfUri(segments[..n]);
      PiecesAfterSlash(Uri(segments[..n]), segments[n]);
      FilterSnoc(IsPiece(), Pieces(Uri(segments[..n])), segments[n]);
    }
  }

  lemma {:induction false} AlreadyNormal(uri: string)
    requires '\\' !in uri
    ensures Normal(uri) == uri
  {
    if uri != "" {
      var n := |uri| - 1;
      assert uri == uri[..n] + [uri[n]] && uri[n] in uri;
      AlreadyNormal(uri[..n]);
    }
  }

  /** Reading backslashes as slashes changes nothing else. */
  lemma {:induction false} NormalMeaning(uri: string, i: nat)
    requires i < |uri|
    ensures Normal(uri)[i] == if uri[i] == '\\' then '/' else uri[i]
  {
    if i < |uri| - 1 {
      NormalMeaning(uri[..|uri| - 1], i);
    }
  }

  /** Above a path lie exactly the paths of its shorter non-empty prefixes, the shallow ones first. */
  lemma AbovePath(segments: seq<string>)
    requires AreSegments(segments) && segments != []
    ensures Above(Uri(segments)) == Uris(segments[..|segments| - 1])
  {
    var n := |segments| - 1;
    assert segments[n] in segments;
    SegmentsOfUri(segments);
    SegmentsOfUri(segments[..n]);
    AlreadyNormal(Uri(segments));
    ParentAfterSlash(Uri(segments[..n]), segments[n]);
  }

  /** A text with a slash is what stands before the last one, the slash, and the rest. */
  lemma {:induction false} LastSlash(u: string) returns (rest: string)
    requires '/' in u
    ensures '/' !in rest && u == BeforeLastSlash(u) + "/" + rest
  {
    var n := |u| - 1;
    if u[n] == '/' {
      rest := "";
    } else {
      assert u == u[..n] + [u[n]];
      var before := LastSlash(u[..n]);
      rest := before + [u[n]];
    }
  }

  /** A path is its own parent if and only if it has no slash and no backslash. */
  lemma OwnParentIff(uri: string)
    ensures Parent(Normal(uri)) == Normal(uri) <==> '/' !in Normal(uri)
    ensures '/' in Normal(uri) <==> '/' in uri || '\\' in uri
  {
    NormalSlashes(uri);
    if '/' in Normal(uri) {
      var rest := LastSlash(Normal(uri));
      assert |Parent(Normal(uri))| < |Normal(uri)|;
    }
  }

  lemma {:induction false} NormalSlashes(uri: string)
    ensures '/' in Normal(uri) <==> '/' in uri || '\\' in uri
  {
    if uri != "" {
      NormalSlashes(uri[..|uri| - 1]);
      assert uri == uri[..|uri| - 1] + [uri[|uri| - 1]];
    }
  }

  /** Whether a path names something in a directory: it has a slash, and a name after the last one. */
  predicate IsBelow(u: string) {
    '/' in u && u[|u| - 1] != '/'
  }

  /** What any path asks for, clean or not: the directories above it if it lies in one, and otherwise, when it
      has no slash or ends with one, a directory of its own path as well. */
  lemma AboveAny(uri: string)
    ensures var segments := SegmentsOf(Normal(uri));
            && (IsBelow(Normal(uri)) ==> segments != [] && Above(uri) == Uris(segments[..|segments| - 1]))
            && (!IsBelow(Normal(uri)) ==> Above(uri) == Uris(segments))
  {
    var u := Normal(uri);
    if '/' in u {
      var rest := LastSlash(u);
      PiecesAfterSlash(BeforeLastSlash(u), rest);
      FilterSnoc(IsPiece(), Pieces(BeforeLastSlash(u)), rest);
      hide Pieces, Filter, Uris, BeforeLastSlash;
      var before := SegmentsOf(Parent(u));
      assert IsBelow(u) <==> rest != "" by {
        assert rest != "" ==> u[|u| - 1] == rest[|rest| - 1] && rest[|rest| - 1] in rest;
      }
      assert rest != "" ==> (before + [rest])[..|before|] == before;
    }
  }

  /** A directory of the path's own name is asked for if and only if it has segments but lies below none. */
  lemma AsksForItselfIff(uri: string)
    ensures var segments := SegmentsOf(Normal(uri));
            Uri(segments) in Above(uri) <==> segments != [] && !IsBelow(Normal(uri))
  {
    hide Pieces, Filter, Above, IsBelow, Uris, Uri, SegmentsOf;
    var segments := SegmentsOf(Normal(uri));
    AboveAny(uri);
    SegmentsAreClean(Normal(uri));
    OwnPathAmong(segments);
  }

  lemma SegmentsAreClean(u: string)
    requires '\\' !in u
    ensures AreSegments(SegmentsOf(u))
  {
    PiecesAreClean(u);
    FilterMembers(IsPiece(), Pieces(u));
  }

  /** The whole path is the last of its prefixes, and is not among the shorter ones. */
  lemma OwnPathAmong(segments: seq<string>)
    requires AreSegments(segments)
    ensures Uri(segments) in Uris(segments) <==> segments != []
    ensures segments != [] ==> Uri(segments) !in Uris(segments[..|segments| - 1])
  {
    hide Uri, Slashes;
    if segments != [] {
      assert segments[..|segments|] == segments;
      assert Uris(segments)[|segments| - 1] == Uri(segments);
      var shorter := segments[..|segments| - 1];
      DepthOfUri(segments);
      forall i | 0 <= i < |shorter| ensures Uris(shorter)[i] != Uri(segments) {
        DepthOfUri(shorter[..i + 1]);
      }
    }
  }

  /** A bare name, for one, asks for a directory of that name at the root. */
  lemma AboveBareName(name: string)
    requires '/' !in Normal(name)
    ensures Above(name) == if name == "" then [] else ["/" + Normal(name)]
  {
    var u := Normal(name);
    BarePieces(u);
    FilterSnoc(IsPiece(), [], u);
    assert [] + [u] == [u];
    assert u != "" ==> Uri([u]) == "/" + u by {
      assert [u][..0] == [];
      assert "" + "/" == "/";
    }
    assert [u][..1] == [u];
    assert u != "" ==> Uris([u]) == ["/" + u];
  }

  lemma {:induction false} BarePieces(name: string)
    requires '/' !in name
    ensures Pieces(name) == [name]
  {
    if name != "" {
      var n := |name| - 1;
      assert name == name[..n] + [name[n]] && name[n] in name;
      BarePieces(name[..n]);
    }
  }

  lemma {:induction false} PiecesAreClean(p: string)
    requires '\\' !in p
    ensures forall s :: s in Pieces(p) ==> '/' !in s && '\\' !in s
  {
    if p != "" {
      var n := |p| - 1;
      PiecesAreClean(p[..n]);
    }
  }

  /** Every path asked for is made of clean segments, whatever the file's own path looks like. */
  lemma AboveIsClean(uri: string)
    ensures AreSegments(SegmentsOf(Parent(Normal(uri))))
  {
    SegmentsAreClean(Parent(Normal(uri)));
  }

  /** What lies above a directory that was asked for was asked for too, and before it. */
  lemma AboveIsClosed(uri: string, i: nat)
    requires i < |Above(uri)|
    ensures Above(Above(uri)[i]) == Above(uri)[..i]
  {
    var segments := SegmentsOf(Parent(Normal(uri)));
    AboveIsClean(uri);
    hide Pieces, Parent, Normal, Filter, Uri, Uris;
    AbovePath(segments[..i + 1]);
    assert segments[..i + 1][..i] == segments[..i];
    UrisPrefix(segments, i);
  }

  function Slashes(uri: string): nat {
    if uri == "" then 0 else Slashes(uri[..|uri| - 1]) + if uri[|uri| - 1] == '/' then 1 else 0
  }

  lemma {:induction false} SlashesConcat(a: string, b: string)
    ensures Slashes(a + b) == Slashes(a) + Slashes(b)
  {
    if b == "" {
      assert a + b == a;
    } else {
      assert (a + b)[..|a + b| - 1] == a + b[..|b| - 1];
      SlashesConcat(a, b[..|b| - 1]);
    }
  }

  lemma {:induction false} NoSlashes(s: string)
    requires '/' !in s
    ensures Slashes(s) == 0
  {
    if s != "" {
      assert s == s[..|s| - 1] + [s[|s| - 1]] && s[|s| - 1] in s;
      NoSlashes(s[..|s| - 1]);
    }
  }

  lemma {:induction false} DepthOfUri(segments: seq<string>)
    requires AreSegments(segments)
    ensures Slashes(Uri(segments)) == |segments|
  {
    if segments != [] {
      var n := |segments| - 1;
      assert segments[n] in segments;
      DepthOfUri(segments[..n]);
      SlashesConcat(Uri(segments[..n]) + "/", segments[n]);
      SlashesConcat(Uri(segments[..n]), "/");
      NoSlashes(segments[n]);
      assert Slashes("/") == 1;
    }
  }

  /** The number of slashes is the depth. */
  lemma DepthAbove(uri: string, i: nat)
    requires i < |Above(uri)|
    ensures Slashes(Above(uri)[i]) == i + 1
  {
    AboveIsClean(uri);
    DepthOfUri(SegmentsOf(Parent(Normal(uri)))[..i + 1]);
  }
}
