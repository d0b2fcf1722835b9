/** The episode management page (`Management.razor.cs`): the episode list read
    from the podcast feed and the refresh of each episode's indexing status.
    The feed, the status lookup of the memory service and the document id
    generator are parameters. */
module ManagementComponent {
  import opened Wrappers
  import opened KernelMemory

  /** A `DateTimeOffset`: the instant in UTC ticks and the offset from UTC. */
  datatype Timestamp = Timestamp(utcTicks: int, offsetMinutes: int)

  /** The memory service's `DataPipelineStatus`, carried as an opaque value. */
  datatype DataPipelineStatus = DataPipelineStatus(documentId: string, completed: bool, failed: bool)

  /** A `SyndicationItem` of the feed; an item without a title has a null
      `Title`, one without a guid a null `Id`. */
  datatype FeedItem = FeedItem(title: Option<string>, id: Option<string>, publishDate: Timestamp)

  /** The page's `PodcastItem` record. */
  datatype PodcastItem = PodcastItem(
    title: string,
    id: Option<string>,
    publishDate: Timestamp,
    status: Option<DataPipelineStatus>)

  /** Every item of `feed` has a title. */
  predicate AllTitled(feed: seq<FeedItem>) {
    forall i :: 0 <= i < |feed| ==> feed[i].title.Some?
  }

  /** The position of the first item without a title (where `item.Title.Text`
      throws), or `|feed|` when every item has one. */
  function FirstUntitled(feed: seq<FeedItem>): (n: nat)
    ensures n <= |feed|
    ensures AllTitled(feed[..n])
    ensures n < |feed| ==> feed[n].title.None?
  {
    if |feed| == 0 || feed[0].title.None? then 0
    else
      var n := 1 + FirstUntitled(feed[1..]);
      assert forall i :: 1 <= i < n ==> feed[..n][i] == feed[1..][..n - 1][i - 1];
      n
  }

  /** The record the loop builds for a feed item: no status yet. */
  function FromFeed(item: FeedItem): PodcastItem
    requires item.title.Some?
  {
    PodcastItem(item.title.value, item.id, item.publishDate, None)
  }

  /** What the loop of `OnInitializedAsync` appends for `feed`, item by item. */
  function Imported(feed: seq<FeedItem>): seq<PodcastItem>
    requires AllTitled(feed)
  {
    if |feed| == 0 then []
    else Imported(feed[..|feed| - 1]) + [FromFeed(feed[|feed| - 1])]
  }

  /** One episode per feed item, in feed order, with the item's title, id and
      publish date and no status. */
  lemma {:induction false} ImportedAt(feed: seq<FeedItem>)
    requires AllTitled(feed)
    ensures |Imported(feed)| == |feed|
    ensures forall k :: 0 <= k < |feed| ==>
      Imported(feed)[k] == PodcastItem(feed[k].title.value, feed[k].id, feed[k].publishDate, None)
  {
    if |feed| > 0 {
      var init := feed[..|feed| - 1];
      assert forall k :: 0 <= k < |init| ==> init[k] == feed[k];
      ImportedAt(init);
    }
  }

  /** `GetDocumentStatusAsync`: for a document id, the status (null when the
      memory holds none) or the exception the call throws. */
  type StatusLookup = string -> Result<Option<DataPipelineStatus>, ServiceError>

  /** Every status lookup of the loop over `eps` returns instead of throwing. */
  predicate AllAnswered(
    eps: seq<PodcastItem>,
    lookup: StatusLookup,
    generateId: (string, Timestamp) -> string)
  {
    forall i :: 0 <= i < |eps| ==> lookup(generateId(eps[i].title, eps[i].publishDate)).Success?
  }

  /** `item with { Status = status }`, the status being what the lookup of the
      item's generated id returned. */
  function Refresh(
    item: PodcastItem,
    lookup: StatusLookup,
    generateId: (string, Timestamp) -> string): PodcastItem
    requires lookup(generateId(item.title, item.publishDate)).Success?
  {
    item.(status := lookup(generateId(item.title, item.publishDate)).value)
  }

  /** What the loop of `RetrieveStatuses` accumulates in `updatedEps` when no
      lookup throws. */
  function Refreshed(
    eps: seq<PodcastItem>,
    lookup: StatusLookup,
    generateId: (string, Timestamp) -> string): seq<PodcastItem>
    requires AllAnswered(eps, lookup, generateId)
  {
    if |eps| == 0 then []
    else
      assert forall i :: 0 <= i < |eps| - 1 ==> eps[..|eps| - 1][i] == eps[i];
      Refreshed(eps[..|eps| - 1], lookup, generateId) + [Refresh(eps[|eps| - 1], lookup, generateId)]
  }

  /** The refresh keeps the length and order of the list and every field but
      the status, which becomes the lookup of the episode's generated id (a
      null lookup result stays null). */
  lemma {:induction false} RefreshedAt(
    eps: seq<PodcastItem>,
    lookup: StatusLookup,
    generateId: (string, Timestamp) -> string)
    requires AllAnswered(eps, lookup, generateId)
    ensures |Refreshed(eps, lookup, generateId)| == |eps|
    ensures forall k :: 0 <= k < |eps| ==>
      var r := Refreshed(eps, lookup, generateId)[k];
      && r.title == eps[k].title
      && r.id == eps[k].id
      && r.publishDate == eps[k].publishDate
      && Success(r.status) == lookup(generateId(eps[k].title, eps[k].publishDate))
  {
    if |eps| > 0 {
      var init := eps[..|eps| - 1];
      assert forall k :: 0 <= k < |init| ==> init[k] == eps[k];
      RefreshedAt(init, lookup, generateId);
    }
  }

  /** A second refresh replaces every status of the first one: the ids it looks
      up are unchanged, so it looks up the same ids and only the latest lookup
      counts. */
  lemma {:induction false} RefreshedTwice(
    eps: seq<PodcastItem>,
    first: StatusLookup,
    second: StatusLookup,
    generateId: (string, Timestamp) -> string)
    requires AllAnswered(eps, first, generateId) && AllAnswered(eps, second, generateId)
    ensures AllAnswered(Refreshed(eps, first, generateId), second, generateId)
    ensures Refreshed(Refreshed(eps, first, generateId), second, generateId) == Refreshed(eps, second, generateId)
  {
    var once := Refreshed(eps, first, generateId);
    RefreshedAt(eps, first, generateId);
    assert AllAnswered(once, second, generateId);
    RefreshedAt(once, second, generateId);
    RefreshedAt(eps, second, generateId);
    var twice := Refreshed(once, second, generateId);
    var direct := Refreshed(eps, second, generateId);
    forall k | 0 <= k < |eps| ensures twice[k] == direct[k] {
      assert twice[k].title == direct[k].title;
    }
  }

  /** Episodes read from the feed and then refreshed carry the status of the
      generated id of their feed item. */
  lemma {:induction false} ImportThenRefresh(
    feed: seq<FeedItem>,
    lookup: StatusLookup,
    generateId: (string, Timestamp) -> string)
    requires AllTitled(feed)
    requires forall k :: 0 <= k < |feed| ==>
      lookup(generateId(feed[k].title.value, feed[k].publishDate)).Success?
    ensures AllAnswered(Imported(feed), lookup, generateId)
    ensures |Refreshed(Imported(feed), lookup, generateId)| == |feed|
    ensures forall k :: 0 <= k < |feed| ==>
      Refreshed(Imported(feed), lookup, generateId)[k] ==
        PodcastItem(feed[k].title.value, feed[k].id, feed[k].publishDate,
                    lookup(generateId(feed[k].title.value, feed[k].publishDate)).value)
  {
    ImportedAt(feed);
    assert AllAnswered(Imported(feed), lookup, generateId);
    RefreshedAt(Imported(feed), lookup, generateId);
  }

  class Management {
    var episodes: seq<PodcastItem>
    var itemsToIndex: set<PodcastItem>
    var fetchingStatuses: bool

    /** The field initialisers of the component. */
    constructor ()
      ensures episodes == [] && itemsToIndex == {} && !fetchingStatuses
    {
      episodes := [];
      itemsToIndex := {};
      fetchingStatuses := false;
    }

    /** `OnInitializedAsync`: append one episode per feed item. An item without
        a title stops the loop with a null dereference (`completed` is false);
        the items before it are already appended. */
    method OnInitialized(feed: seq<FeedItem>) returns (completed: bool)
      modifies this`episodes
      ensures completed <==> FirstUntitled(feed) == |feed|
      ensures episodes == old(episodes) + Imported(feed[..FirstUntitled(feed)])
    {
      for i := 0 to |feed|
        invariant AllTitled(feed[..i])
        invariant episodes == old(episodes) + Imported(feed[..i])
      {
        if feed[i].title.None? {
          return false;
        }
        assert feed[..i + 1][..i] == feed[..i];
        assert AllTitled(feed[..i + 1]) by {
          assert forall k :: 0 <= k < i ==> feed[..i + 1][k] == feed[..i][k];
        }
        episodes := episodes + [FromFeed(feed[i])];
      }
      assert feed[..|feed|] == feed;
      return true;
    }

    /** `RetrieveStatuses`: look up the status of every episode, in order, and
        replace the list with the refreshed one; `fetchingStatuses` is set for
        the duration of the loop. `lookup` stands for
        `Memory.GetDocumentStatusAsync`, `generateId` for
        `SyndicationItemTools.GenerateId`. A lookup that throws ends the
        handler there (`completed` is false): the list is left as it was and
        `fetchingStatuses` stays set. */
    method RetrieveStatuses(lookup: StatusLookup, generateId: (string, Timestamp) -> string)
      returns (completed: bool)
      modifies this`episodes, this`fetchingStatuses
      ensures completed <==> AllAnswered(old(episodes), lookup, generateId)
      ensures completed ==> episodes == Refreshed(old(episodes), lookup, generateId) && !fetchingStatuses
      ensures !completed ==> episodes == old(episodes) && fetchingStatuses
      ensures itemsToIndex == old(itemsToIndex)
    {
      fetchingStatuses := true;
      var updatedEps: seq<PodcastItem> := [];
      for i := 0 to |episodes|
        invariant fetchingStatuses
        invariant AllAnswered(episodes[..i], lookup, generateId)
        invariant updatedEps == Refreshed(episodes[..i], lookup, generateId)
      {
        var item := episodes[i];
        var id := generateId(item.title, item.publishDate);
        var outcome := lookup(id);
        if outcome.Failure? {
          return false;
        }
        var status := outcome.value;
        var updatedItem := item.(status := status);
        assert episodes[..i + 1][..i] == episodes[..i];
        assert AllAnswered(episodes[..i + 1], lookup, generateId) by {
          assert forall k :: 0 <= k < i ==> episodes[..i + 1][k] == episodes[..i][k];
        }
        updatedEps := updatedEps + [updatedItem];
      }
      assert episodes[..|episodes|] == episodes;
      episodes := updatedEps;
      fetchingStatuses := false;
      return true;
    }
  }
}
