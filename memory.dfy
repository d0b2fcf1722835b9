/** The shapes of the Kernel Memory values the pages exchange with the memory
    service. The service itself (`IKernelMemory.AskAsync`,
    `GetDocumentStatusAsync`) is not modelled: the pages receive each call as a
    function parameter that gives the call's value or the exception it throws. */
module KernelMemory {
  import opened Wrappers

  /** A `TagCollection`: each tag key holds an ordered list of values, any of
      which may be null. */
  type TagCollection = map<string, seq<Option<string>>>

  /** `Citation.Partition`: one matching chunk of a document. The relevance is
      the service's score, carried without arithmetic. */
  datatype Partition = Partition(text: string, relevance: real, tags: TagCollection)

  /** A `Citation` of the answer: the matching partitions of one document, in
      the order the service returns them. */
  datatype Citation = Citation(partitions: seq<Partition>)

  /** `MemoryAnswer`: the generated text and the cited sources. */
  datatype MemoryAnswer = MemoryAnswer(result: string, relevantSources: seq<Citation>)

  /** A `MemoryFilter`: tag key to the ordered list of wanted values. */
  type MemoryFilter = map<string, seq<string>>

  /** An exception thrown by a call into the memory service. */
  datatype ServiceError = ServiceError(message: string)

  /** What the page passes to `AskAsync`. */
  datatype Query = Query(question: string, filter: MemoryFilter, minRelevance: real)

  /** `MemoryFilter.Add(key, value)`: append `value` to the list under `key`,
      starting a new list when the key is absent; other keys are untouched. */
  function FilterAdd(f: MemoryFilter, key: string, value: string): (r: MemoryFilter)
    ensures r.Keys == f.Keys + {key}
    ensures key in f ==> r[key] == f[key] + [value]
    ensures key !in f ==> r[key] == [value]
    ensures forall k :: k in f && k != key ==> r[k] == f[k]
  {
    if key in f then f[key := f[key] + [value]] else f[key := [value]]
  }
}
