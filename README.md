# purpledoc request pipeline, modelled in Dafny

purpledoc answers a question about a web page. For each `/ask` request its
server does five things. It fetches the page. It extracts the page's text. It
cuts the text into overlapping chunks and embeds each chunk into a fresh
ChromaDB collection. It takes the five chunks most similar to the question.
Finally it asks Gemini to answer from those chunks only.

This project models the logic the server itself decides. The three parts of
that logic are:

- `chunk_text` (module `Chunker`, file `chunker.dfy`). A loop moves a `start`
  cursor forward by `chunk_size - overlap` and appends
  `text[start:start+chunk_size]` each time. `Chunker.ChunkText` keeps that
  loop. It is proved equal to `Chunker.Windows`, a closed form in which
  window `i` starts at `Start(i, step)`, that is `i * step`. The lemmas about
  `Windows` cover four facts: the shape of each window, the count (the
  ceiling of `|text| / step`), the short-text cases, and exact
  reconstruction once overlaps are dropped.
- The rate-limit-safe embedding function `GeminiEmbeddingFunction.__call__`
  (module `Embedder`, file `embedder.dfy`). The embedding service is an
  oracle `Service = (text index, attempt) -> Reply`. `Embedder.EmbedAll`
  keeps the nested `for`/`while` loop with `retry_count`, `break` and the
  list accumulator. The 20-second sleeps are a `waits` counter, and the
  requests sent to the service are a `calls` counter. The method is proved
  equal to the per-text outcome `Settle`, summed over the texts. That outcome
  is then characterised directly from the oracle's replies.
- The decisions of `ask` (module `Pipeline`, file `pipeline.dfy`). This is a
  pure function over what each collaborator returned: the status code, the
  extracted text, whether the collection was created and added to, the
  retrieved documents, and the generated text. It returns the HTTP response
  and the list of collaborator calls it makes, with their arguments. Its
  contract covers the status check, truncation to `MAX_CHUNKS`, the empty-page
  short-circuit, id assignment, joining the context and the prompt. It also
  states the outcome at every stage: an exception from the fetch, the
  collection, `add`, `query` or `generate_content` ends the request with a
  500 that carries its message, and no later call is made. When every call
  succeeds, the answer is the model's text after five calls.

Module `Strings` (file `strings.dfy`) gives Python's meaning to `sub in s`,
`sep.join(parts)` and `str(n)`, with lemmas connecting each to an independent
description.

## Behaviour worth knowing

- Chunk count. `chunk_text` gives `ceil(L/800)` chunks for a text of `L`
  characters with the defaults. A text longer than 800 but no longer than
  1000 characters therefore gives two chunks, the second being everything
  after character 800. A 900-character page gives the whole page and then
  its last 100 characters (`Chunker.NineHundredCharacters`,
  `Chunker.OverlapTailRepeats`).
- Exhausted retries. The comment on the embedding class says it handles the
  "429 Quota Exceeded" errors, and the zero vector is appended "as fallback"
  only after a non-quota error. After three quota errors the `while` loop
  ends without appending anything, so the result can be shorter than the
  input (`Embedder.GaveUpIff`, `Embedder.EmbeddingsLength`,
  `Embedder.AlwaysRateLimited`).
- Unreachable pages. The `HTTPException(400)` raised for a non-200 page sits
  inside the handler's `try`, whose `except Exception` turns it into a 500
  with detail `"400: Failed to load page"` (`Pipeline.Ask`).
- Truncation. `MAX_CHUNKS` is read from the environment without validation.
  A negative value follows Python slicing, so `chunks[:-1]` drops the last
  chunk (`Pipeline.Truncate`). With `MAX_CHUNKS = 0`, every page gets the
  no-text answer.

## Model

| member | source | states |
|---|---|---|
| `Chunker.ChunkText` | purple/server.py:48-55 | an empty text gives `[]` for any sizes; for `0 <= S` and `O < S` the `while` loop returns `ChunkCount(|text|, S-O)` chunks and equals `Windows(text, S, O)` |
| `Chunker.PySlice` | purple/server.py:53 | `text[start:end]` clips the end to the length of the text and is empty past the end |
| `Chunker.WindowShape` | purple/server.py:51-54 | for `0 < S` and `O < S`, chunk `i` starts inside the text at `Start(i, S-O)`, equals `text[Start(i):min(Start(i)+S, |text|)]`, and has between 1 and `S` characters |
| `Chunker.StartIsProduct` | purple/server.py:54 | chunk `i` starts at `i*(S-O)` |
| `Chunker.CountCovers` | purple/server.py:51-54 | the last chunk starts before `|text|` and the next cursor value reaches `|text|`; there are no chunks exactly when the text is empty |
| `Chunker.CountIsCeiling` | purple/server.py:51-54 | the number of chunks `c` is the ceiling of `|text|/(S-O)`: `c*(S-O) >= |text|` and `(c-1)*(S-O) < |text|` |
| `Chunker.ShortText` | purple/server.py:49-54 | empty text gives `[]`; text of length at most `S-O` gives exactly `[text]` |
| `Chunker.OverlapTailRepeats` | purple/server.py:51-54 | text longer than `S-O` but no longer than `S` gives at least two chunks, the first being the whole text and the second `text[S-O:]` |
| `Chunker.NineHundredCharacters` | purple/server.py:48-55 | with the defaults 1000/200, a 900-character text gives `[text, text[800:]]` |
| `Chunker.NeighboursOverlap` | purple/server.py:52-54 | every chunk but the last has at least `S-O` characters, and what follows its first `S-O` characters is a prefix of the next chunk |
| `Chunker.WindowsHaveShape` | purple/server.py:51-54 | every chunk from a given position on is the window of the text at its start |
| `Chunker.ReassembleFrom` | purple/server.py:51-54 | the first `S-O` characters of each chunk from `k` on, followed by the last chunk, give `text[Start(k):]` |
| `Chunker.ReassembleChunks` | purple/server.py:51-54 | the first `S-O` characters of every chunk but the last, followed by the whole last chunk, reconstruct the text exactly |
| `Chunker.LastChunkEndsText` | purple/server.py:51-54 | a non-empty text has a last chunk, and it runs to the end of the text |
| `Embedder.ZeroVector` | purple/server.py:82 | the fallback has 768 elements, all zero |
| `Embedder.EmbedAll` | purple/server.py:60-84 | the nested loop returns `Embeddings(service, n)`, sleeps `Waits(service, n)` times and calls the service `Calls(service, n)` times |
| `Embedder.SucceededIff` | purple/server.py:64-73 | a text ends with embedding `v` from attempt `q` exactly when `q < 3`, attempt `q` returned `v` and every earlier attempt was a quota error, so nothing after the first success is tried |
| `Embedder.FellBackIff` | purple/server.py:74-83 | a text ends with the zero vector after attempt `q` exactly when attempt `q` failed without "429" or "Quota" in its message and every earlier attempt was a quota error, so there is no retry after such an error |
| `Embedder.GaveUpIff` | purple/server.py:63-78 | a text contributes nothing exactly when all three attempts were quota errors |
| `Embedder.EmbeddingsLength` | purple/server.py:61-84 | the output is no longer than the input, and equal in length exactly when no text exhausts its retries |
| `Embedder.EmbeddingsInOrder` | purple/server.py:61-84 | output `j` is the vector of the `j`-th text that did not give up; the contributing texts appear in increasing input order and every such text appears |
| `Embedder.CallsAccounting` | purple/server.py:62-83 | every call either ends in a wait (a quota error) or appends one vector; each text gets at most 3 calls, so there are at most `3n` in all |
| `Embedder.CallsPerText` | purple/server.py:63-83 | a text entered with `retry_count == k` is called at most 3 times in all, and when it appends a vector it has waited at least `k` and fewer than 3 times |
| `Embedder.AlwaysFailing` | purple/server.py:79-83 | a service that always fails without a quota message gives `n` zero vectors, `n` calls and no waits |
| `Embedder.AlwaysRateLimited` | purple/server.py:75-78 | a service that always reports a quota error gives an empty result after `3n` calls and `3n` waits |
| `Embedder.RateLimitedTwiceThenEmbedded` | purple/server.py:64-78 | two quota errors followed by an embedding give three calls, two waits, and the real embedding appended |
| `Strings.ContainsIff` | purple/server.py:75 | `sub in s` holds exactly when some offset of `s` starts a copy of `sub` |
| `Strings.JoinLayout` | purple/server.py:134 | `sep.join(parts)` has length equal to the parts plus one separator between neighbours, part `j` sits verbatim at its offset, and `sep` itself stands between part `j` and part `j + 1` |
| `Strings.JoinContainsParts` | purple/server.py:134 | every part occurs in the joined string |
| `Strings.NatToString` | purple/server.py:125 | `str(i)` is a non-empty string of decimal digits with no leading zero |
| `Strings.StringToNatInverts` | purple/server.py:125 | reading `str(i)` back as a decimal number gives `i` |
| `Strings.NatToStringInjective` | purple/server.py:125 | distinct numbers have distinct `str()` forms |
| `Pipeline.Truncate` | purple/server.py:115-117 | the kept chunks are a prefix of the chunk list, exactly its first `min(n, MAX_CHUNKS)` elements when `MAX_CHUNKS >= 0`, and `n + MAX_CHUNKS` of them (at least zero) when it is negative |
| `Pipeline.IdsNamePositions` | purple/server.py:125 | there are `n` ids, id `i` reads back as `i`, and the ids are pairwise distinct |
| `Pipeline.PromptLayout` | purple/server.py:140-148 | the prompt holds the context verbatim right after its fixed head, and contains the question |
| `Pipeline.Ask` | purple/server.py:87-156 | every error is status 500. A non-200 page gives `"400: Failed to load page"` after the fetch alone. An exception from the fetch, `create_collection`, `add`, `query` or `generate_content` ends the request with a 500 carrying its message, and no call follows the one that raised. The collection reset precedes the add. An empty chunk list gives the fixed answer with no add, query or generation. Otherwise the add carries the kept chunks with ids `Ids(n)`, the query asks for 5 results, and the prompt is built from the retrieved documents joined by `"\n\n"` and the question. When all of these succeed, the answer is the model's text after exactly five calls, and an answer is only ever the fixed text or the model's text |
| `Pipeline.IndexedPrefix` | purple/server.py:112-126 | for a loaded page with text and `MAX_CHUNKS > 0`, the add step carries the first `min(n, MAX_CHUNKS)` chunks in order with ids parallel to them |
| `Pipeline.PromptCarriesRetrieval` | purple/server.py:129-150 | when generation is reached, the prompt sent to the model contains every retrieved document and the question |
| `Pipeline.ShortPage` | purple/server.py:112-150 | a page of at most 800 characters whose query retrieves its one chunk is added as the single document `"0"`, and the prompt's context is exactly the page text |

## Left out

- HTTP fetch and FastAPI wiring (`requests.get`, the route, CORS, `uvicorn`) are network and framework code. Only the status code, or the message of the exception, is an input.
- BeautifulSoup tag stripping and `get_text` are a foreign HTML parser. The extracted text is an input.
- Gemini embedding and generation are foreign services. Embeddings come from the `Service` oracle. Generation is represented only by its returned text or exception message.
- ChromaDB internals are a foreign library that ranks by floating-point similarity. These include `delete_collection`, whose every error is swallowed, the collection's own validation, and the ranking inside `query`. Creation, `add` and `query` are abstract outcomes. The retrieved documents are an uninterpreted list, which the real store bounds by 5. ChromaDB's reaction to an embedding list shorter than the chunk list is not part of this model. That list is shorter exactly when `Embedder.EmbeddingsLength` says so.
- Pipeline.Ask: the embedding function that ChromaDB calls inside `add` and `query` is not composed into `Ask`. `Ask` sees only the outcome of those calls. `Embedder.EmbedAll` models that function on its own.
- Concurrent requests are not modelled. FastAPI runs the synchronous `ask` in a thread pool, and every request shares one in-memory `chroma_client` and the collection name `"temp_docs"`. One request's `delete_collection` can therefore remove the collection another request has just filled, between that request's `add` and its `query`. `Pipeline.Ask` describes one request running alone.
- `time.sleep` and `print` have no logical content. Sleeps are counted as `waits`, and log lines are dropped.
- Loading the environment and configuration (`load_dotenv`, `GOOGLE_API_KEY`, `int(os.getenv("MAX_CHUNKS", 8))`) is I/O. `MAX_CHUNKS` is a parameter, with default `Pipeline.DefaultMaxChunks`.
- `extension/popup.js` and `extension/background.js` are browser UI and message plumbing, with no standalone logic.
- Chunker.ChunkText: a non-empty text is covered only for `0 <= chunk_size` and `overlap < chunk_size`; negative overlaps are included, and their windows leave gaps. Two cases are excluded. With `overlap >= chunk_size` and a non-empty text the Python cursor never advances, so the loop does not terminate. A negative `chunk_size` can make the slice end negative, which Python counts back from the end of the text; that case is not modelled. An empty text gives `[]` for any sizes, and the model covers that. The handler always calls `chunk_text` with the defaults 1000 and 200. The lemmas about overlaps and reassembly assume `0 <= overlap`.
- `str()` of the `HTTPException` comes from the web framework. The model takes it to be `"400: Failed to load page"`, the status code and detail joined by `": "`.
- Vectors are opaque `seq<real>`. Their only properties used are length and being all zeros. No floating-point arithmetic is modelled.
