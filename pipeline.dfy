/** The decisions of the `/ask` handler: status check, chunking and
    truncation, the empty-page answer, id assignment, context assembly,
    prompt construction and the mapping of every exception to status 500.
    Each collaborator (HTTP fetch, HTML extraction, the vector store, the
    language model) is represented only by what it returned to the handler. */
module Pipeline {
  import opened Strings
  import Chunker

  /** `MAX_CHUNKS` when the environment does not set it. */
  const DefaultMaxChunks: int := 8
  /** `n_results` of the similarity query. */
  const ResultsPerQuery: nat := 5
  /** The one collection name every request reuses. */
  const CollectionName: string := "temp_docs"
  /** Answer for a page whose (truncated) chunk list is empty. */
  const NoTextAnswer: string := "I couldn't find any text on this page."
  /** `str()` of `HTTPException(status_code=400, detail="Failed to load page")`. */
  const LoadFailedMessage: string := "400: Failed to load page"
  /** Status of the `HTTPException` raised by the catch-all handler. */
  const InternalErrorStatus: int := 500
  /** Separator `"\n\n"` placed between retrieved documents. */
  const ContextSeparator: string := "\n\n"

  /** What a collaborator call gave the handler: a value, or the message of
      the exception it raised. */
  datatype Outcome<T> = Done(value: T) | Raised(message: string)

  /** The results of the collaborators of one request. */
  datatype Collaborators = Collaborators(
    fetch: Outcome<int>,           // status code of `requests.get`
    pageText: string,              // `soup.get_text(separator=' ', strip=True)`
    create: Outcome<()>,           // `create_collection`
    add: Outcome<()>,              // `collection.add`, which embeds the chunks
    query: Outcome<seq<string>>,   // `results['documents'][0]` of `collection.query`
    generate: Outcome<string>)     // `response.text` of `generate_content`

  /** A collaborator call the handler makes, with the arguments the model decides. */
  datatype Step =
    | Fetch(url: string)
    | ResetCollection(name: string)
    | Add(ids: seq<string>, documents: seq<string>)
    | Query(queryText: string, nResults: nat)
    | Generate(prompt: string)

  /** The HTTP outcome of the request: a `QueryResponse`, or an `HTTPException`. */
  datatype Response = Answer(answer: string) | HttpError(status: int, detail: string)

  /** The response together with the collaborator calls made, in order. */
  datatype Run = Run(response: Response, steps: seq<Step>)

  /** Python's `s[:m]`: a negative `m` counts from the end. */
  function PyPrefix<T>(s: seq<T>, m: int): seq<T>
  {
    if m >= 0 then s[..Chunker.Min(m, |s|)]
    else if |s| + m >= 0 then s[..|s| + m]
    else []
  }

  /** The truncation in `ask`: keep at most `maxChunks` chunks, by Python slicing. */
  function Truncate(chunks: seq<string>, maxChunks: int): (r: seq<string>)
    ensures r <= chunks
    ensures maxChunks >= 0 ==> r == chunks[..Chunker.Min(|chunks|, maxChunks)]
    ensures maxChunks < 0 ==> |r| == if |chunks| + maxChunks >= 0 then |chunks| + maxChunks else 0
  {
    if |chunks| > maxChunks then PyPrefix(chunks, maxChunks) else chunks
  }

  /** `[str(i) for i in range(n)]`. */
  function Ids(n: nat): seq<string>
  {
    seq(n, i requires 0 <= i => NatToString(i))
  }

  /** The ids name their positions, so they are pairwise distinct. */
  lemma IdsNamePositions(n: nat)
    ensures |Ids(n)| == n
    ensures forall i :: 0 <= i < n ==> IsDigits(Ids(n)[i]) && StringToNat(Ids(n)[i]) == i
    ensures forall i, j :: 0 <= i < j < n ==> Ids(n)[i] != Ids(n)[j]
  {
    forall i | 0 <= i < n
      ensures IsDigits(Ids(n)[i]) && StringToNat(Ids(n)[i]) == i
    {
      StringToNatInverts(i);
    }
    forall i, j | 0 <= i < j < n
      ensures Ids(n)[i] != Ids(n)[j]
    {
      NatToStringInjective(i, j);
    }
  }

  /** Text of the f-string before the context. */
  const PromptHead: string :=
    "\n        You are a helpful assistant. Answer the user's question using ONLY the context provided below.\n        \n        CONTEXT:\n        "
  /** Text of the f-string between the context and the question. */
  const PromptMiddle: string := "\n        \n        USER QUESTION: \n        "
  /** Text of the f-string after the question. */
  const PromptTail: string := "\n        "

  /** The part of the prompt that follows the context. */
  function PromptRest(query: string): string
  {
    PromptMiddle + query + PromptTail
  }

  /** The prompt f-string of `ask`. */
  function Prompt(context: string, query: string): string
  {
    PromptHead + context + PromptRest(query)
  }

  /** The prompt holds the context right after its fixed head, and holds the question. */
  lemma PromptLayout(context: string, query: string)
    ensures |PromptHead| + |context| <= |Prompt(context, query)|
    ensures Prompt(context, query)[|PromptHead|..|PromptHead| + |context|] == context
    ensures Contains(Prompt(context, query), context) && Contains(Prompt(context, query), query)
  {
    var head := PromptHead + context;
    ContainsMiddle(PromptHead, context, PromptRest(query));
    ContainsMiddle(PromptMiddle, query, PromptTail);
    ContainsAfter(head, PromptRest(query), query);
    assert head[|PromptHead|..] == context;
  }

  /** The chunks the handler indexes for a page. */
  function IndexedChunks(pageText: string, maxChunks: int): seq<string>
  {
    Truncate(Chunker.Windows(pageText, Chunker.DefaultChunkSize, Chunker.DefaultOverlap), maxChunks)
  }

  /** The add call for a page: its kept chunks, with ids naming their positions. */
  function AddStep(pageText: string, maxChunks: int): Step
  {
    var chunks := IndexedChunks(pageText, maxChunks);
    Add(Ids(|chunks|), chunks)
  }

  /** The body of `ask`: what the handler returns and which collaborator
      calls it makes, given what each collaborator returns. */
  function Ask(url: string, query: string, env: Collaborators, maxChunks: int): (r: Run)
    // every failure, the non-200 page included, reaches the caller as a 500
    ensures r.response.HttpError? ==> r.response.status == InternalErrorStatus
    ensures |r.steps| >= 1 && r.steps[0] == Fetch(url)
    // a non-200 page: nothing after the fetch happens
    ensures env.fetch.Done? && env.fetch.value != 200 ==>
              r == Run(HttpError(InternalErrorStatus, LoadFailedMessage), [Fetch(url)])
    ensures env.fetch.Raised? ==> r == Run(HttpError(InternalErrorStatus, env.fetch.message), [Fetch(url)])
    // the collection is reset before anything is added to it
    ensures |r.steps| >= 2 ==> r.steps[1] == ResetCollection(CollectionName)
    // an empty chunk list: the fixed answer and no add, query or generation
    ensures env.fetch == Done(200) && env.create.Done? && IndexedChunks(env.pageText, maxChunks) == [] ==>
              r == Run(Answer(NoTextAnswer), [Fetch(url), ResetCollection(CollectionName)])
    // what is added: the kept chunks, with ids parallel to them
    ensures forall k :: 0 <= k < |r.steps| && r.steps[k].Add? ==>
              k == 2 && r.steps[k].documents == IndexedChunks(env.pageText, maxChunks) &&
              r.steps[k].documents != [] && r.steps[k].ids == Ids(|r.steps[k].documents|)
    ensures forall k :: 0 <= k < |r.steps| && r.steps[k].Query? ==>
              k == 3 && r.steps[k] == Query(query, ResultsPerQuery)
    // what is asked: the retrieved documents joined by a blank line, and the question
    ensures forall k :: 0 <= k < |r.steps| && r.steps[k].Generate? ==>
              k == 4 && env.query.Done? &&
              r.steps[k].prompt == Prompt(Join(ContextSeparator, env.query.value), query)
    // an exception at any later stage ends the request with a 500 carrying
    // its message, and no call follows the one that raised
    ensures env.fetch == Done(200) && env.create.Raised? ==>
              r == Run(HttpError(InternalErrorStatus, env.create.message),
                       [Fetch(url), ResetCollection(CollectionName)])
    ensures env.fetch == Done(200) && env.create.Done? && IndexedChunks(env.pageText, maxChunks) != [] &&
            env.add.Raised? ==>
              r == Run(HttpError(InternalErrorStatus, env.add.message),
                       [Fetch(url), ResetCollection(CollectionName), AddStep(env.pageText, maxChunks)])
    ensures env.fetch == Done(200) && env.create.Done? && IndexedChunks(env.pageText, maxChunks) != [] &&
            env.add.Done? && env.query.Raised? ==>
              r == Run(HttpError(InternalErrorStatus, env.query.message),
                       [Fetch(url), ResetCollection(CollectionName), AddStep(env.pageText, maxChunks),
                        Query(query, ResultsPerQuery)])
    ensures env.fetch == Done(200) && env.create.Done? && IndexedChunks(env.pageText, maxChunks) != [] &&
            env.add.Done? && env.query.Done? ==>
              r.steps == [Fetch(url), ResetCollection(CollectionName), AddStep(env.pageText, maxChunks),
                          Query(query, ResultsPerQuery),
                          Generate(Prompt(Join(ContextSeparator, env.query.value), query))] &&
              r.response == (match env.generate
                             case Done(answer) => Answer(answer)
                             case Raised(e) => HttpError(InternalErrorStatus, e))
    // an answer is either the fixed empty-page answer or the model's text
    ensures r.response.Answer? ==>
              (r.response.answer == NoTextAnswer && |r.steps| == 2) ||
              (env.generate == Done(r.response.answer) && |r.steps| == 5)
  {
    match env.fetch
    case Raised(e) => Run(HttpError(InternalErrorStatus, e), [Fetch(url)])
    case Done(status) =>
      if status != 200 then
        Run(HttpError(InternalErrorStatus, LoadFailedMessage), [Fetch(url)])
      else
        var reset := [Fetch(url), ResetCollection(CollectionName)];
        match env.create
        case Raised(e) => Run(HttpError(InternalErrorStatus, e), reset)
        case Done(_) =>
          var chunks := IndexedChunks(env.pageText, maxChunks);
          if chunks == [] then
            Run(Answer(NoTextAnswer), reset)
          else
            var added := reset + [AddStep(env.pageText, maxChunks)];
            match env.add
            case Raised(e) => Run(HttpError(InternalErrorStatus, e), added)
            case Done(_) =>
              var queried := added + [Query(query, ResultsPerQuery)];
              match env.query
              case Raised(e) => Run(HttpError(InternalErrorStatus, e), queried)
              case Done(documents) =>
                var prompt := Prompt(Join(ContextSeparator, documents), query);
                var generated := queried + [Generate(prompt)];
                match env.generate
                case Raised(e) => Run(HttpError(InternalErrorStatus, e), generated)
                case Done(answer) => Run(Answer(answer), generated)
  }

  /** A page that loads and has text: the first `min(n, MAX_CHUNKS)` chunks
      are added in their order, one distinct id each, when `MAX_CHUNKS > 0`. */
  lemma IndexedPrefix(url: string, query: string, env: Collaborators, maxChunks: int)
    requires env.fetch == Done(200) && env.create.Done?
    requires env.pageText != [] && maxChunks > 0
    ensures var chunks := Chunker.Windows(env.pageText, Chunker.DefaultChunkSize, Chunker.DefaultOverlap);
            var kept := chunks[..Chunker.Min(|chunks|, maxChunks)];
            |Ask(url, query, env, maxChunks).steps| >= 3 &&
            Ask(url, query, env, maxChunks).steps[2] == Add(Ids(|kept|), kept) &&
            0 < |kept| <= maxChunks
  {
    Chunker.CountCovers(|env.pageText|, Chunker.DefaultChunkSize - Chunker.DefaultOverlap);
  }

  /** Every retrieved document appears in the prompt sent to the model, and
      so does the question. */
  lemma PromptCarriesRetrieval(url: string, query: string, env: Collaborators, maxChunks: int, j: nat)
    requires env.query.Done? && j < |env.query.value|
    requires |Ask(url, query, env, maxChunks).steps| == 5
    ensures Ask(url, query, env, maxChunks).steps[4].Generate?
    ensures Contains(Ask(url, query, env, maxChunks).steps[4].prompt, env.query.value[j])
    ensures Contains(Ask(url, query, env, maxChunks).steps[4].prompt, query)
  {
    var context := Join(ContextSeparator, env.query.value);
    PromptLayout(context, query);
    JoinContainsParts(ContextSeparator, env.query.value, j);
    ContainsAfter(PromptHead, context, env.query.value[j]);
    ContainsBefore(PromptHead + context, PromptRest(query), env.query.value[j]);
  }

  /** A short page (at most one step of text), a positive `MAX_CHUNKS` and a
      query that retrieves that one chunk: the whole page is the one document
      added, under id "0", and the prompt's context is exactly that page. */
  lemma ShortPage(url: string, query: string, env: Collaborators, maxChunks: int)
    requires env.fetch == Done(200) && env.create.Done? && env.add.Done?
    requires 0 < |env.pageText| <= Chunker.DefaultChunkSize - Chunker.DefaultOverlap && maxChunks > 0
    requires env.query == Done([env.pageText])
    ensures Ask(url, query, env, maxChunks).steps ==
              [Fetch(url), ResetCollection(CollectionName), Add(["0"], [env.pageText]),
               Query(query, ResultsPerQuery), Generate(Prompt(env.pageText, query))]
  {
    Chunker.ShortText(env.pageText, Chunker.DefaultChunkSize, Chunker.DefaultOverlap);
    assert Ids(1) == ["0"];
  }
}
