/** The question page (`Home.razor.cs`): the component's fields and its two
    handlers. The memory service, the configuration and the speech synthesiser
    are parameters of the handlers. */
module HomeComponent {
  import opened Wrappers
  import opened Text
  import opened KernelMemory
  import opened Sources

  /** The relevance threshold every question is asked with. */
  const MinRelevance: real := 0.8

  /** A selected `MudChip`; only its text is used. */
  datatype Chip = Chip(text: string)

  /** `vs` holds the chips' texts, one per chip, in selection order. */
  predicate ListsTexts(vs: seq<string>, chips: seq<Chip>) {
    |vs| == |chips| && forall i :: 0 <= i < |chips| ==> vs[i] == chips[i].text
  }

  /** `f` is the filter for the selected speakers and topics: a `speaker` key
      listing the speaker chips when any is selected, a `topic` key likewise,
      and nothing else. */
  ghost predicate IsSelectionFilter(f: MemoryFilter, speakers: seq<Chip>, topics: seq<Chip>) {
    && f.Keys <= {"speaker", "topic"}
    && ("speaker" in f <==> |speakers| > 0)
    && ("topic" in f <==> |topics| > 0)
    && ("speaker" in f ==> ListsTexts(f["speaker"], speakers))
    && ("topic" in f ==> ListsTexts(f["topic"], topics))
  }

  /** The two `foreach` loops of `DoAsk` that fill the filter with `Add`. */
  method BuildFilter(speakers: seq<Chip>, topics: seq<Chip>) returns (filter: MemoryFilter)
    ensures IsSelectionFilter(filter, speakers, topics)
    ensures filter == map[] <==> |speakers| == 0 && |topics| == 0
  {
    filter := map[];
    for i := 0 to |speakers|
      invariant filter.Keys == if i == 0 then {} else {"speaker"}
      invariant i > 0 ==> ListsTexts(filter["speaker"], speakers[..i])
    {
      filter := FilterAdd(filter, "speaker", speakers[i].text);
    }
    ghost var speakerKeys := filter.Keys;
    for i := 0 to |topics|
      invariant filter.Keys == speakerKeys + if i == 0 then {} else {"topic"}
      invariant |speakers| > 0 ==> ListsTexts(filter["speaker"], speakers)
      invariant i > 0 ==> ListsTexts(filter["topic"], topics[..i])
    {
      filter := FilterAdd(filter, "topic", topics[i].text);
    }
    assert |speakers| > 0 ==> "speaker" in filter;
    assert |topics| > 0 ==> "topic" in filter;
  }

  /** The selection determines the filter: any two filters that fit it are equal. */
  lemma SelectionFilterUnique(f: MemoryFilter, g: MemoryFilter, speakers: seq<Chip>, topics: seq<Chip>)
    requires IsSelectionFilter(f, speakers, topics) && IsSelectionFilter(g, speakers, topics)
    ensures f == g
  {
    assert f.Keys == g.Keys;
    // Under each key both lists hold the chips' texts position by position, so
    // sequence extensionality makes them equal.
    forall k | k in f ensures f[k] == g[k] {
    }
  }

  class Home {
    var userInput: Option<string>
    var answer: Option<string>
    /** The outcome of enumerating `sources`, or `None` for a null `sources`. */
    var sources: Option<Result<seq<Source>, ProjectionError>>
    var selectedSpeakers: seq<Chip>
    var selectedTopics: seq<Chip>
    var loading: bool
    var answerSpokenFile: Option<string>
    var playAudio: bool

    /** The field initialisers of the component. */
    constructor ()
      ensures userInput == Some("") && answer == None && sources == None
      ensures selectedSpeakers == [] && selectedTopics == []
      ensures !loading && answerSpokenFile == None && !playAudio
    {
      userInput := Some("");
      answer := None;
      sources := None;
      selectedSpeakers := [];
      selectedTopics := [];
      loading := false;
      answerSpokenFile := None;
      playAudio := false;
    }

    /** `DoAsk`: ignore a blank question; otherwise clear the previous answer,
        ask the memory with the selection's filter and the fixed threshold,
        keep its answer and the projected sources, and speak the answer when
        `Speech:Enabled` is "true". `memory` stands for `Memory.AskAsync` (its
        answer, or the exception it throws), `speechEnabled` for
        `Configuration["Speech:Enabled"]`, `synthesized` for the file a
        completed synthesis writes; `issued` is the query sent. When the call
        throws, the handler stops there: the answer and sources stay cleared
        and `loading` stays set. */
    method DoAsk(
      memory: Query -> Result<MemoryAnswer, ServiceError>,
      speechEnabled: Option<string>,
      synthesized: Option<string>)
      returns (issued: Option<Query>)
      modifies this
      ensures IsNullOrWhiteSpace(old(userInput)) ==> issued == None && unchanged(this)
      ensures !IsNullOrWhiteSpace(old(userInput)) ==> issued.Some?
      ensures issued.Some? ==>
        && old(userInput) == Some(issued.value.question)
        && issued.value.minRelevance == MinRelevance
      ensures issued.Some? ==> IsSelectionFilter(issued.value.filter, old(selectedSpeakers), old(selectedTopics))
      ensures issued.Some? && memory(issued.value).Success? ==>
        answer == Some(memory(issued.value).value.result)
      ensures issued.Some? && memory(issued.value).Success? ==>
        sources == Some(ProjectSources(memory(issued.value).value.relevantSources))
      ensures issued.Some? && memory(issued.value).Success? ==> !loading && !playAudio
      ensures issued.Some? && memory(issued.value).Success? ==>
        answerSpokenFile ==
          if speechEnabled == Some("true") && memory(issued.value).value.result != "" then synthesized else None
      ensures issued.Some? && memory(issued.value).Failure? ==>
        answer == None && sources == None && loading && answerSpokenFile == None && !playAudio
      ensures userInput == old(userInput)
      ensures selectedSpeakers == old(selectedSpeakers) && selectedTopics == old(selectedTopics)
    {
      if IsNullOrWhiteSpace(userInput) {
        return None;
      }

      answer := None;
      sources := None;
      loading := true;

      answerSpokenFile := None;
      playAudio := false;

      var filter := BuildFilter(selectedSpeakers, selectedTopics);

      var query := Query(userInput.value, filter, MinRelevance);
      issued := Some(query);
      var outcome := memory(query);
      if outcome.Failure? {
        return;
      }
      var response := outcome.value;

      answer := Some(response.result);

      sources := Some(ProjectSources(response.relevantSources));
      loading := false;

      if speechEnabled == Some("true") {
        Speak(synthesized);
      }
    }

    /** `Speak`: with no answer text nothing happens; otherwise a completed
        synthesis (`synthesized` is the file it wrote) records its file. */
    method Speak(synthesized: Option<string>)
      modifies this`answerSpokenFile
      ensures IsNullOrEmpty(answer) ==> answerSpokenFile == old(answerSpokenFile)
      ensures !IsNullOrEmpty(answer) ==>
        answerSpokenFile == if synthesized.Some? then synthesized else old(answerSpokenFile)
    {
      if IsNullOrEmpty(answer) {
        return;
      }
      if synthesized.Some? {
        answerSpokenFile := synthesized;
      }
    }
  }
}
