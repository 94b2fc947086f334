/** Picking the errors that belong to one streamed chunk of an incremental
    GraphQL response (`Stream::chunkError`). A chunk's `errors` entry is a
    list of GraphQL errors; the errors kept are those whose path, joined with
    dots, starts as text with the path of the chunk. */
module Stream {
  import opened Wrappers
  import opened PhpStrings
  import opened PhpArrays

  /** One step of a GraphQL response path: a field name or a list index. */
  datatype PathSegment = FieldName(name: string) | ListIndex(index: nat)

  /** A GraphQL error as it appears in a chunk: the response path it concerns
      and its message (the other keys of an error are carried along untouched
      and are not distinguished here). */
  datatype GraphQLError = GraphQLError(path: seq<PathSegment>, message: string)

  /** The value stored under a key of a chunk: a list of errors, or any value
      that is not a PHP array (null, a string, a number, a boolean). */
  datatype ChunkValue = ErrorList(errors: seq<GraphQLError>) | NotAnArray

  /** A decoded response chunk, keyed by its top-level entries. */
  type ChunkData = map<string, ChunkValue>

  /** A path segment as `implode` writes it: names as they are, indexes in decimal. */
  function SegmentText(segment: PathSegment): string {
    match segment
    case FieldName(name) => name
    case ListIndex(index) => NatToString(index)
  }

  /** `implode('.', $error['path'])`. */
  function JoinedPath(error: GraphQLError): string {
    Join(".", seq(|error.path|, i requires 0 <= i < |error.path| => SegmentText(error.path[i])))
  }

  /** `JoinedPath` is the dot-join of the given segment texts. */
  lemma JoinedPathOf(error: GraphQLError, texts: seq<string>)
    requires |texts| == |error.path|
    requires forall i :: 0 <= i < |texts| ==> SegmentText(error.path[i]) == texts[i]
    ensures JoinedPath(error) == Join(".", texts)
  {
    assert seq(|error.path|, i requires 0 <= i < |error.path| => SegmentText(error.path[i])) == texts;
  }

  /** The filter callback: does the error's joined path start with `path`? */
  function PathFilter(path: string): GraphQLError -> bool {
    (error: GraphQLError) => StartsWith(JoinedPath(error), path)
  }

  /** `$data['errors'] ?? null` followed by the `is_array` test. */
  function ErrorsOf(data: ChunkData): Option<seq<GraphQLError>> {
    if "errors" in data && data["errors"].ErrorList? then Some(data["errors"].errors) else None
  }

  /** `Stream::chunkError($path, $data)`: null when the chunk has no list of
      errors; otherwise the errors whose joined path starts with `path`, in
      their original order and renumbered from 0. What an empty `path` keeps
      is left open: the contract speaks about non-empty paths only. */
  function ChunkError(path: string, data: ChunkData): (r: Option<seq<GraphQLError>>)
    ensures r.None? <==> !("errors" in data && data["errors"].ErrorList?)
    ensures "errors" in data && data["errors"].ErrorList? ==>
      var errors := data["errors"].errors;
      && |r.value| <= |errors|
      && (exists keys :: SubsequenceAt(r.value, errors, keys))
      && (path != "" ==> forall k :: 0 <= k < |r.value| ==> StartsWith(JoinedPath(r.value[k]), path))
      && (path != "" ==> forall i :: 0 <= i < |errors| && StartsWith(JoinedPath(errors[i]), path) ==> errors[i] in r.value)
      && (path != "" ==> exists keys ::
            && SubsequenceAt(r.value, errors, keys)
            && forall i :: 0 <= i < |errors| ==> (i in keys <==> StartsWith(JoinedPath(errors[i]), path)))
  {
    match ErrorsOf(data)
    case None => None
    case Some(errors) =>
      FilterSpec(errors, PathFilter(path));
      Some(Filter(errors, PathFilter(path)))
  }

  /** The contract above pins the result down: a list of errors taken in order
      at exactly the positions whose joined path starts with `path` is what
      the chunk yields. */
  lemma ChunkErrorIsDetermined(path: string, errors: seq<GraphQLError>, kept: seq<GraphQLError>, keys: seq<nat>)
    requires SubsequenceAt(kept, errors, keys)
    requires forall i :: 0 <= i < |errors| ==> (i in keys <==> StartsWith(JoinedPath(errors[i]), path))
    ensures path != "" ==> ChunkError(path, map["errors" := ErrorList(errors)]) == Some(kept)
  {
    FilterIsDetermined(kept, errors, PathFilter(path), keys);
  }

  /** Filtering the errors a chunk kept again, with the same path, keeps them all. */
  lemma ChunkErrorIdempotent(path: string, data: ChunkData)
    requires "errors" in data && data["errors"].ErrorList?
    ensures ChunkError(path, map["errors" := ErrorList(ChunkError(path, data).value)]) == ChunkError(path, data)
  {
    var errors := data["errors"].errors;
    FilterIdempotent(errors, PathFilter(path));
  }

  /** A chunk whose `errors` entry is the list `errors` yields the filtered list. */
  lemma ChunkErrorOfList(path: string, errors: seq<GraphQLError>)
    ensures ChunkError(path, map["errors" := ErrorList(errors)]) == Some(Filter(errors, PathFilter(path)))
  {
  }

  /** Keeping one of three elements, by what the filter says of each. */
  lemma FilterKeyedOfThree<T>(x: T, y: T, z: T, keep: T -> bool)
    requires keep(x) && !keep(y) && !keep(z)
    ensures Filter([x, y, z], keep) == [x]
  {
    assert [x, y, z][..2] == [x, y];
    assert [x, y][..1] == [x];
    assert [x][..0] == [];
    assert FilterKeyed([x], keep) == [Entry(0, x)];
    assert FilterKeyed([x, y], keep) == [Entry(0, x)];
    assert FilterKeyed([x, y, z], keep) == [Entry(0, x)];
  }

  /** Keeping the second of two elements, by what the filter says of each. */
  lemma FilterKeyedOfTwo<T>(x: T, y: T, keep: T -> bool)
    requires !keep(x) && keep(y)
    ensures Filter([x, y], keep) == [y]
  {
    assert [x, y][..1] == [x];
    assert [x][..0] == [];
    assert FilterKeyed([x], keep) == [];
    assert FilterKeyed([x, y], keep) == [Entry(1, y)];
  }

  const AtABC := GraphQLError([FieldName("a"), FieldName("bc")], "e1")
  const AtA := GraphQLError([FieldName("a")], "e2")
  const AtXAB := GraphQLError([FieldName("x"), FieldName("a"), FieldName("b")], "e3")
  const AtA1B := GraphQLError([FieldName("a"), ListIndex(1), FieldName("b")], "e4")

  /** The joined path of the sample error at `a.bc`. */
  lemma JoinedPathOfABC()
    ensures JoinedPath(AtABC) == "a.bc"
  {
    JoinedPathOf(AtABC, ["a", "bc"]);
    JoinCons(".", "a", ["bc"]);
  }

  /** The joined path of the sample error at `a`. */
  lemma JoinedPathOfA()
    ensures JoinedPath(AtA) == "a"
  {
    JoinedPathOf(AtA, ["a"]);
  }

  /** The joined path of the sample error at `x.a.b`. */
  lemma JoinedPathOfXAB()
    ensures JoinedPath(AtXAB) == "x.a.b"
  {
    JoinedPathOf(AtXAB, ["x", "a", "b"]);
    JoinCons(".", "x", ["a", "b"]);
    JoinCons(".", "a", ["b"]);
  }

  /** The joined path of the sample error at `a[1].b`: the index as decimal text. */
  lemma JoinedPathOfA1B()
    ensures JoinedPath(AtA1B) == "a.1.b"
  {
    assert NatToString(1) == "1";
    JoinedPathOf(AtA1B, ["a", "1", "b"]);
    JoinCons(".", "a", ["1", "b"]);
    JoinCons(".", "1", ["b"]);
  }

  /** The match is a prefix of the joined text, not of the segments: the path
      `a.b` selects an error at `a.bc`, but neither one at `a` nor one at
      `x.a.b`. */
  lemma ChunkErrorMatchesJoinedText()
    ensures ChunkError("a.b", map["errors" := ErrorList([AtABC, AtA, AtXAB])]) == Some([AtABC])
  {
    JoinedPathOfABC();
    JoinedPathOfA();
    JoinedPathOfXAB();
    var keep := PathFilter("a.b");
    assert "x.a.b"[0] == 'x';
    assert keep(AtABC) && !keep(AtA) && !keep(AtXAB);
    FilterKeyedOfThree(AtABC, AtA, AtXAB, keep);
    ChunkErrorOfList("a.b", [AtABC, AtA, AtXAB]);
  }

  /** List indexes take part in the match through their decimal text: the
      path `a.1` selects an error at `a[1].b` and not one at `a`. */
  lemma ChunkErrorMatchesListIndexes()
    ensures ChunkError("a.1", map["errors" := ErrorList([AtA, AtA1B])]) == Some([AtA1B])
  {
    JoinedPathOfA();
    JoinedPathOfA1B();
    var keep := PathFilter("a.1");
    assert !keep(AtA) && keep(AtA1B);
    FilterKeyedOfTwo(AtA, AtA1B, keep);
    ChunkErrorOfList("a.1", [AtA, AtA1B]);
  }
}
