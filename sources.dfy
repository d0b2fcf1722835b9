/** The projection of the memory's citations into the page's `Source` records
    (the `Select` over `RelevantSources` in `Home.DoAsk`). Each `First` that can
    throw is an error case of a `Result`. */
module Sources {
  import opened Wrappers
  import opened KernelMemory

  /** The record as `DoAsk` constructs it: seven fields. The date is the raw text
      of the `date` tag. */
  datatype Source = Source(
    title: string,
    uri: string,
    speakers: seq<Option<string>>,
    topics: seq<Option<string>>,
    description: string,
    date: string,
    relevance: real)

  /** Why enumerating the projected sources throws. */
  datatype ProjectionError =
    | NoPartitionWithTag(key: string)  // `First(p => p.Tags.ContainsKey(key))` matched nothing
    | NoTagValue(key: string)          // `Tags[key].First()` on an empty list
    | NullTagValue(key: string)        // `DateTime.Parse(null)`

  /** `i` is the index of the first partition that carries the tag `key`. */
  predicate IsFirstWithTag(ps: seq<Partition>, key: string, i: int) {
    && 0 <= i < |ps|
    && key in ps[i].tags
    && forall j :: 0 <= j < i ==> key !in ps[j].tags
  }

  /** Some partition carries `key`, and the first one that does has a value for it. */
  ghost predicate HasFirstValue(ps: seq<Partition>, key: string) {
    exists i :: IsFirstWithTag(ps, key, i) && |ps[i].tags[key]| > 0
  }

  /** The index that `partitions.First(p => p.Tags.ContainsKey(key))` picks. */
  function FirstWithTag(ps: seq<Partition>, key: string): (r: Option<nat>)
    ensures r.Some? ==> IsFirstWithTag(ps, key, r.value)
    ensures r.None? <==> forall i :: 0 <= i < |ps| ==> key !in ps[i].tags
  {
    if |ps| == 0 then None
    else if key in ps[0].tags then Some(0)
    else match FirstWithTag(ps[1..], key)
      case None => None
      case Some(i) => Some(i + 1)
  }

  /** `partitions.First(p => p.Tags.ContainsKey(key)).Tags[key].First()`:
      the first value of `key` on the first partition that has the key. */
  function FirstTagValue(ps: seq<Partition>, key: string): (r: Result<Option<string>, ProjectionError>)
    ensures r.Success? <==> HasFirstValue(ps, key)
    ensures forall i :: IsFirstWithTag(ps, key, i) && r.Success? ==> r.value == ps[i].tags[key][0]
    ensures r == Failure(NoPartitionWithTag(key)) <==> forall i :: 0 <= i < |ps| ==> key !in ps[i].tags
    ensures r.Failure? ==> r.error == NoPartitionWithTag(key) || r.error == NoTagValue(key)
  {
    match FirstWithTag(ps, key)
    case None => Failure(NoPartitionWithTag(key))
    case Some(i) =>
      if |ps[i].tags[key]| == 0 then Failure(NoTagValue(key)) else Success(ps[i].tags[key][0])
  }

  /** `partitions.Where(p => p.Tags.ContainsKey(key)).SelectMany(p => p.Tags[key])`. */
  function TagValues(ps: seq<Partition>, key: string): seq<Option<string>> {
    if |ps| == 0 then []
    else (if key in ps[0].tags then ps[0].tags[key] else []) + TagValues(ps[1..], key)
  }

  /** `?? ""`. */
  function OrEmpty(s: Option<string>): string {
    match s
    case None => ""
    case Some(t) => t
  }

  /** The partitions of `c` let every `First` of the projection succeed and
      give the date parser a non-null text. */
  ghost predicate Projectable(c: Citation) {
    var ps := c.partitions;
    && HasFirstValue(ps, "title")
    && HasFirstValue(ps, "uri")
    && HasFirstValue(ps, "date")
    && forall i :: IsFirstWithTag(ps, "date", i) ==> ps[i].tags["date"][0].Some?
  }

  /** The lambda of the `Select`: one citation to one `Source`, or the exception
      its evaluation throws, checked in the order of the statements (title, uri,
      date). */
  function ToSource(c: Citation): (r: Result<Source, ProjectionError>)
    ensures r.Success? <==> Projectable(c)
    ensures r.Success? ==> |c.partitions| > 0
    ensures r.Success? ==>
      && (forall i :: IsFirstWithTag(c.partitions, "title", i) ==>
            r.value.title == OrEmpty(c.partitions[i].tags["title"][0]))
      && (forall i :: IsFirstWithTag(c.partitions, "uri", i) ==>
            r.value.uri == OrEmpty(c.partitions[i].tags["uri"][0]))
      && (forall i :: IsFirstWithTag(c.partitions, "date", i) ==>
            Some(r.value.date) == c.partitions[i].tags["date"][0])
      && r.value.speakers == TagValues(c.partitions, "speaker")
      && r.value.topics == TagValues(c.partitions, "topic")
      && r.value.description == c.partitions[0].text
      && r.value.relevance == c.partitions[0].relevance
    ensures !HasFirstValue(c.partitions, "title") ==> r.Failure? && r.error.key == "title"
    ensures HasFirstValue(c.partitions, "title") && !HasFirstValue(c.partitions, "uri") ==>
      r.Failure? && r.error.key == "uri"
    ensures HasFirstValue(c.partitions, "title") && HasFirstValue(c.partitions, "uri") && r.Failure? ==>
      r.error.key == "date"
  {
    var ps := c.partitions;
    var title :- FirstTagValue(ps, "title");
    var uri :- FirstTagValue(ps, "uri");
    var date :- FirstTagValue(ps, "date");
    if date.None? then Failure(NullTagValue("date"))
    else
      Success(Source(
        OrEmpty(title),
        OrEmpty(uri),
        TagValues(ps, "speaker"),
        TagValues(ps, "topic"),
        ps[0].text,
        date.value,
        ps[0].relevance))
  }

  /** Enumerating a lazy `Select(f)` over `xs` to the end: every result in
      order, or the exception of the first element `f` throws on. */
  function SelectAll<A, B, E>(xs: seq<A>, f: A -> Result<B, E>): (r: Result<seq<B>, E>)
    ensures r.Success? <==> forall i :: 0 <= i < |xs| ==> f(xs[i]).Success?
    ensures r.Success? ==>
      |r.value| == |xs| && forall i :: 0 <= i < |xs| ==> f(xs[i]) == Success(r.value[i])
    ensures r.Failure? ==>
      exists i :: 0 <= i < |xs| && f(xs[i]) == Failure(r.error)
                && forall j :: 0 <= j < i ==> f(xs[j]).Success?
  {
    if |xs| == 0 then Success([])
    else
      match f(xs[0])
      case Failure(e) => Failure(e)
      case Success(y) =>
        var tail := SelectAll(xs[1..], f);
        assert forall i :: 1 <= i < |xs| ==> xs[i] == xs[1..][i - 1];
        match tail
        case Failure(e) => Failure(e)
        case Success(ys) => Success([y] + ys)
  }

  /** The page's `sources` once enumerated: one `Source` per citation, in the
      order of `RelevantSources`, or the first citation's exception. */
  function ProjectSources(cs: seq<Citation>): Result<seq<Source>, ProjectionError> {
    SelectAll(cs, ToSource)
  }

  /** The values of consecutive runs of partitions are concatenated: the order of
      partitions is kept and nothing is merged. */
  lemma {:induction false} TagValuesAppend(a: seq<Partition>, b: seq<Partition>, key: string)
    ensures TagValues(a + b, key) == TagValues(a, key) + TagValues(b, key)
  {
    if |a| == 0 {
      assert a + b == b;
    } else {
      assert (a + b)[1..] == a[1..] + b;
      TagValuesAppend(a[1..], b, key);
    }
  }

  /** A value is among the collected ones exactly when some partition carries it
      under `key`. */
  lemma {:induction false} TagValuesMember(ps: seq<Partition>, key: string, v: Option<string>)
    ensures v in TagValues(ps, key) <==>
      exists i :: 0 <= i < |ps| && key in ps[i].tags && v in ps[i].tags[key]
  {
    if |ps| > 0 {
      TagValuesMember(ps[1..], key, v);
      if v in TagValues(ps[1..], key) {
        var i :| 0 <= i < |ps[1..]| && key in ps[1..][i].tags && v in ps[1..][i].tags[key];
        assert ps[i + 1] == ps[1..][i];
      }
      if exists i :: 0 <= i < |ps| && key in ps[i].tags && v in ps[i].tags[key] {
        var i :| 0 <= i < |ps| && key in ps[i].tags && v in ps[i].tags[key];
        if i > 0 {
          assert ps[1..][i - 1] == ps[i];
        }
      }
    }
  }

  /** Every value of every partition is kept, duplicates included: the number of
      collected values is the sum of the list lengths. */
  lemma {:induction false} TagValuesLength(ps: seq<Partition>, key: string)
    ensures |TagValues(ps, key)| == TotalValues(ps, key)
  {
    if |ps| > 0 {
      TagValuesLength(ps[1..], key);
    }
  }

  /** The number of values under `key`, summed over the partitions. */
  function TotalValues(ps: seq<Partition>, key: string): nat {
    if |ps| == 0 then 0
    else (if key in ps[0].tags then |ps[0].tags[key]| else 0) + TotalValues(ps[1..], key)
  }

  /** Two partitions of one episode naming the same speaker give that speaker
      twice, and the source's relevance is the first partition's, even when a
      later partition scores higher. */
  lemma DuplicatesKeptAndFirstRelevance()
    ensures
      var tags1 := map["title" := [Some("Episode 42")], "uri" := [Some("https://x/42")],
                       "date" := [Some("2024-01-01")], "speaker" := [Some("Alice")]];
      var tags2 := map["speaker" := [Some("Alice")]];
      var c := Citation([Partition("first", 0.81, tags1), Partition("second", 0.95, tags2)]);
      ToSource(c) == Success(Source("Episode 42", "https://x/42", [Some("Alice"), Some("Alice")], [],
                                    "first", "2024-01-01", 0.81))
  {
    var tags1 := map["title" := [Some("Episode 42")], "uri" := [Some("https://x/42")],
                     "date" := [Some("2024-01-01")], "speaker" := [Some("Alice")]];
    var tags2 := map["speaker" := [Some("Alice")]];
    var ps := [Partition("first", 0.81, tags1), Partition("second", 0.95, tags2)];
    assert IsFirstWithTag(ps, "title", 0);
    assert IsFirstWithTag(ps, "uri", 0);
    assert IsFirstWithTag(ps, "date", 0);
    assert ps[1..][1..] == [];
    assert TagValues(ps[1..], "speaker") == [Some("Alice")];
    assert TagValues(ps, "speaker") == [Some("Alice"), Some("Alice")];
    assert "topic" !in tags1 && "topic" !in tags2;
    assert TagValues(ps[1..], "topic") == [];
  }

  /** The title and uri are taken from the first partition that has the tag,
      even when it is not the first partition; a null value reads as "". */
  lemma TitleFromFirstTaggedPartition()
    ensures
      var ps := [Partition("intro", 0.9, map["date" := [Some("d")]]),
                 Partition("body", 0.85, map["title" := [None, Some("T")], "uri" := [Some("u")]]),
                 Partition("tail", 0.82, map["title" := [Some("Other")]])];
      ToSource(Citation(ps)) == Success(Source("", "u", [], [], "intro", "d", 0.9))
  {
    var ps := [Partition("intro", 0.9, map["date" := [Some("d")]]),
               Partition("body", 0.85, map["title" := [None, Some("T")], "uri" := [Some("u")]]),
               Partition("tail", 0.82, map["title" := [Some("Other")]])];
    assert IsFirstWithTag(ps, "title", 1);
    assert IsFirstWithTag(ps, "uri", 1);
    assert IsFirstWithTag(ps, "date", 0);
    assert ps[1..][1..][1..] == [];
  }
}
