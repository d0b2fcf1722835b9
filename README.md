# HanselminutesBot front end: question page and episode management

HanselminutesBot answers questions about episodes of the Hanselminutes podcast.
A memory service (Kernel Memory) indexes the transcripts and answers questions.
This project models the two Blazor pages that hold the front end's own logic:

- **The question page** (`Home`). Its handler `DoAsk` ignores a blank question.
  Otherwise it clears the previous answer and builds a tag filter from the
  selected speaker and topic chips. It asks the memory service with that filter
  and a fixed relevance threshold of 0.8. It keeps the answer text and projects
  each cited document into a `Source` record for display. It may then speak the
  answer.
- **The management page** (`Management`). It lists the feed's episodes
  (`OnInitializedAsync`) and refreshes each episode's indexing status by
  looking up the document id generated from its title and publish date
  (`RetrieveStatuses`).

The memory service, the podcast feed, the configuration, the speech
synthesiser and the document id generator are not modelled. Each handler takes
them as parameters: a function for the service call (`memory`, `lookup`,
`generateId`) or a value for what they deliver (`feed`, `speechEnabled`,
`synthesized`).

Files:

- `wrappers.dfy`: `Option` (C#'s nullable values, `None` is `null`) and
  `Result` (a value or the exception that stopped it).
- `text.dfy`: `string.IsNullOrWhiteSpace` and `string.IsNullOrEmpty`.
- `memory.dfy`: the Kernel Memory values the pages exchange: tag collections,
  partitions, citations, the answer, the filter and its `Add`.
- `sources.dfy`: the projection of citations into `Source` records, as pure
  functions, with its lemmas.
- `home.dfy`: the `Home` component (a class over its fields), the filter loops
  and the two handlers.
- `management.dfy`: the `Management` component, its `PodcastItem` record, the
  feed import and the status refresh, with their lemmas.

Notes on the model:

- `Source` has seven fields: title, uri, speakers, topics, description, date
  and relevance. That is the shape `Home.razor.cs:66-73` constructs. The
  record declared in `HanselminutesBot.Frontend/Models/Source.cs:3` has only
  the first five, so the declaration and its use disagree. The model follows
  the use.
- A `Source` is not deduplicated. Speakers and topics are concatenated over
  all partitions that carry the tag, duplicates included. The description and
  relevance come from the first partition, not the best-scoring one.
  `Sources.DuplicatesKeptAndFirstRelevance` shows both on a concrete citation.
- A service call that throws ends its handler at that point. The model gives
  each call a `Result`: the value returned or the exception thrown. The
  handler's state after the exception is stated in its contract.
- `PodcastItem.Id` is declared `string`, but it receives `SyndicationItem.Id`,
  which is null for an item without a guid. The model carries it as an
  `Option`.
- `sources` is a lazy LINQ query in the source. Its `First` calls and the date
  parse throw only when the page enumerates it, not inside `DoAsk`. The model
  stores in `sources` the outcome of enumerating it to the end. That outcome
  is either the list of all `Source` records or the error of the first
  citation that cannot be projected.

## Model

| member | source | states |
|---|---|---|
| `Text.AllWhiteSpace` | HanselminutesBot.Frontend/Components/Pages/Home.razor.cs:30 | true exactly when every character is a .NET white-space character (so also for "") |
| `Text.IsNullOrWhiteSpace` | HanselminutesBot.Frontend/Components/Pages/Home.razor.cs:30 | true exactly for null or a text made only of white space |
| `Text.IsNullOrEmpty` | HanselminutesBot.Frontend/Components/Pages/Home.razor.cs:85 | true exactly for null and "" |
| `KernelMemory.FilterAdd` | HanselminutesBot.Frontend/Components/Pages/Home.razor.cs:46 | `MemoryFilter.Add` appends the value to the key's list, creating the list when the key is new, and leaves every other key alone |
| `Sources.FirstWithTag` | HanselminutesBot.Frontend/Components/Pages/Home.razor.cs:61-62 | the index found is that of a partition with the key and no earlier partition has it; no index exactly when no partition has the key |
| `Sources.FirstTagValue` | HanselminutesBot.Frontend/Components/Pages/Home.razor.cs:61-62 | succeeds exactly when some partition has the key and the first such one has a value; the value is that partition's first; fails with "no partition" exactly when none has the key |
| `Sources.ToSource` | HanselminutesBot.Frontend/Components/Pages/Home.razor.cs:58-74 | succeeds exactly when title, uri and date can be read and the date is not null; title and uri are the first value on the first partition with that tag, null read as ""; speakers and topics are all partitions' values; description and relevance are the first partition's; a failure names the first tag that failed, in statement order |
| `Sources.SelectAll` | HanselminutesBot.Frontend/Components/Pages/Home.razor.cs:58-74 | enumerating the query gives one result per citation, in order, when every citation projects; otherwise the error of the first citation that fails, all earlier ones having succeeded |
| `Sources.TagValuesAppend` | HanselminutesBot.Frontend/Components/Pages/Home.razor.cs:69-70 | the collected values of two runs of partitions are the concatenation of each run's values, so the order of partitions is kept |
| `Sources.TagValuesMember` | HanselminutesBot.Frontend/Components/Pages/Home.razor.cs:69-70 | a value is among the speakers (topics) exactly when some partition carries it under that tag |
| `Sources.TagValuesLength` | HanselminutesBot.Frontend/Components/Pages/Home.razor.cs:69-70 | the number of collected values is the sum of the partitions' list lengths: no duplicate is dropped |
| `Sources.DuplicatesKeptAndFirstRelevance` | HanselminutesBot.Frontend/Components/Pages/Home.razor.cs:63-70 | two partitions naming the same speaker give it twice, and the relevance is the first partition's (0.81) although the second scores 0.95 |
| `Sources.TitleFromFirstTaggedPartition` | HanselminutesBot.Frontend/Components/Pages/Home.razor.cs:61-64 | title and uri come from the first partition that has the tag even when it is not the first partition, a null title reads as "", and the description is the first partition's text |
| `HomeComponent.BuildFilter` | HanselminutesBot.Frontend/Components/Pages/Home.razor.cs:42-52 | the filter maps "speaker" to the selected speakers' texts in order and "topic" to the topics' texts, has a key only when chips of that kind are selected and no other key, and is empty exactly when nothing is selected |
| `HomeComponent.SelectionFilterUnique` | HanselminutesBot.Frontend/Components/Pages/Home.razor.cs:42-52 | the selection determines the filter: two filters that fit the same selection are equal |
| `HomeComponent.Home.constructor` | HanselminutesBot.Frontend/Components/Pages/Home.razor.cs:15-26 | the initial field values: input "", no answer, no sources, no chips, not loading, no audio |
| `HomeComponent.Home.DoAsk` | HanselminutesBot.Frontend/Components/Pages/Home.razor.cs:28-81 | blank input: no query, no field changes; otherwise the query sent carries the input, the selection's filter and threshold 0.8; when the call answers, the answer is the response text, sources its projection, loading and playAudio false, and the spoken file set only by a completed synthesis of a non-empty answer with speech enabled; when the call throws, answer, sources and spoken file stay cleared, loading stays true and playAudio false |
| `HomeComponent.Home.Speak` | HanselminutesBot.Frontend/Components/Pages/Home.razor.cs:83-115 | no change when the answer is null or empty; otherwise the file of a completed synthesis is recorded and nothing else changes |
| `ManagementComponent.FirstUntitled` | HanselminutesBot.Frontend/Components/Pages/Management.razor.cs:31-34 | the position where the import loop stops: every earlier item has a title, and the item there (if any) has none |
| `ManagementComponent.ImportedAt` | HanselminutesBot.Frontend/Components/Pages/Management.razor.cs:31-34 | one episode per feed item, in feed order, with the item's title, id and publish date and a null status |
| `ManagementComponent.RefreshedAt` | HanselminutesBot.Frontend/Components/Pages/Management.razor.cs:54-63 | the refreshed list has the same length and order; each episode keeps title, id and publish date; its status is the lookup of the id generated from its title and publish date, null staying null |
| `ManagementComponent.RefreshedTwice` | HanselminutesBot.Frontend/Components/Pages/Management.razor.cs:54-63 | refreshing twice is refreshing once with the latest lookup: the generated ids do not depend on the status, so the second refresh answers whenever it would on the original list |
| `ManagementComponent.ImportThenRefresh` | HanselminutesBot.Frontend/Components/Pages/Management.razor.cs:31-63 | after import and refresh, each episode is its feed item's title, id and date with the status of that item's generated id |
| `ManagementComponent.Management.constructor` | HanselminutesBot.Frontend/Components/Pages/Management.razor.cs:19-25 | the initial field values: no episodes, nothing selected for indexing, not fetching |
| `ManagementComponent.Management.OnInitialized` | HanselminutesBot.Frontend/Components/Pages/Management.razor.cs:27-37 | appends the imported episodes to the list, up to the first item without a title, and reports whether the loop finished |
| `ManagementComponent.Management.RetrieveStatuses` | HanselminutesBot.Frontend/Components/Pages/Management.razor.cs:51-65 | completes exactly when no lookup throws; then the list becomes its refresh (see `RefreshedAt`) and `fetchingStatuses` is false again; when a lookup throws, the list is unchanged and `fetchingStatuses` stays true; `itemsToIndex` is unchanged either way |

## Left out

- `IKernelMemory.AskAsync`, `GetDocumentStatusAsync`, `PodcastSource.GetFeed`,
  `SyndicationItemTools.GenerateId` and RSS parsing are not modelled. They are
  library or external calls, so the handlers take them as parameters.
- `IndexDocuments` (`Management.razor.cs:39-49`) is not modelled. It is a loop
  of remote queue sends over a `HashSet` whose iteration order is unspecified.
  Its payload is the feed item's `Id`, not the generated id that the status
  lookup uses.
- `HomeComponent.Home.Speak`: the Speech SDK calls
  (`Home.razor.cs:90-128`) are not modelled: configuration reads, voice and
  format setup, the `tts` directory, the GUID file name and the logging. The
  model keeps only the guard and the one field the body can set, with the
  synthesis outcome as a parameter. A missing `Speech:*` setting throws
  `ArgumentException`. That leaves the same fields as a synthesis that writes
  no file (`synthesized == None`), but the exception itself is not modelled.
- `HomeComponent.Home.DoAsk`: the states rendered while `AskAsync` is pending
  (`loading` true, answer and sources cleared) are not stated. Each handler is
  one sequential method, so only the final state is described. Async
  interleaving with other handlers is left out as well.
- `Sources.ToSource`: `DateTime.Parse` is not modelled. The date is kept as
  the raw tag text. Only the null argument is an error, and a text that does
  not parse is accepted.
- Relevance scores and the 0.8 threshold are single- and double-precision
  floats in the source. The model carries them as `real` with no arithmetic.
- `MudChip.Text` is taken to be non-null. A null chip text would be added to
  the filter as a null value, and the model has no such case.
- `ManagementComponent.Timestamp`: `DateTimeOffset` is modelled as its UTC
  ticks and its offset. Equality of the datatype compares the offset too,
  whereas `DateTimeOffset` equality compares only the instant. Only the
  membership of `ItemsToIndex` depends on that, and `IndexDocuments` is not
  modelled.
- `ManagementComponent.Management.RetrieveStatuses`: `lookup` is one fixed
  function for the whole loop, although each `await` is a separate remote
  query whose answer may change between calls. The lookups of one run see
  one snapshot of the memory service.
- `ManagementComponent.DataPipelineStatus` keeps only an id and two flags of
  the library type. The page never inspects it.
- The page markup (`.razor` files), dependency injection, the HTTP pipeline and
  the host's deployment wiring are not part of this model.
