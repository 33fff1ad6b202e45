# PlantUML diagram renderer, modelled in Dafny

`render_plantuml_diagrams` turns every `.plantuml` file in `docs/` into a PNG image next
to it, by asking the public PlantUML server to render it. For each file it reads the
source, deletes any old `<name>.png`, gets an encoded URL from the PlantUML client, takes
the encoded diagram out of that URL, and fetches `https://www.plantuml.com/plantuml/png/<encoded>`.
The response is checked for the PNG signature, status 200 and the server's error markers
(`HUFFMAN`, `bad URL`, `encoding`). A response that fails the checks can lead to one retry
with `~1` inserted before the encoded diagram. The image is written only from a response
that passed.

The model is split by concern:

- `search.dfy`, module `Search`: Python's `in`, `startswith`, `find` and `split(sep, 1)` on
  sequences, with the first-occurrence property proved.
- `bytes.dfy`, module `Bytes`: bytes as a `byte` newtype, ASCII literals and `bytes.lower()`.
- `url.dfy`, module `PlantUmlUrl`: classification of the client URL into the `/plantumll`
  form, the `/plantuml` form or a rejection with its reason, and the two fetch URLs.
- `validation.dfy`, module `Validation`: the PNG signature, the error markers, and which
  responses are accepted or retried on the first and on the second attempt.
- `protocol.dfy`, module `Protocol`: the two-attempt protocol for one file as a state
  machine (NotAttempted, PrimaryAttempted, RetryAttempted, Accepted, Exhausted) run against
  a network oracle (the replies the server gives, one per fetch). `RenderFile` follows the
  renderer's branches one by one and is proved to behave as the state machine does.
- `renderer.dfy`, module `Renderer`: the loop over the files, the output path, and a map from
  path to bytes that stands for the image files on disk.

Some consequences of the code that a reader might not expect:

- The retry response is not checked for `encoding`. Only `HUFFMAN` and `bad URL` refuse it
  (lines 85-87, 107-108, 120-121), so a PNG body that the first attempt refuses for
  `encoding` alone is accepted on the retry.
- A status-200 response that is not a PNG is retried only if the body starts with `<html`,
  contains `HUFFMAN`, or contains `encoding` in any case (line 102). Any other such page,
  one showing only `bad URL` for instance, fails after one fetch.
- A client URL that contains `/plantuml/png/` and not `/plantumll` is rejected (line 59),
  not fetched as it is.
- The source is read (lines 35-36) before the old image is removed (lines 43-44). A source
  that cannot be read therefore leaves its old image in place, and that image may no longer
  match the source.

The client appends its encoding to the configured server URL `https://www.plantuml.com/plantuml`.
An encoding that begins with `l` therefore looks like the `/plantumll` form. Its first
character is then dropped from the suffix (`PlantUmlUrl.ServerFormSuffix`). The client's
code is not part of this model, so this is stated as a property and not as an error.

## Model

| member | source | states |
|---|---|---|
| `Search.IndexOf` | monoova_integration/render_diagrams.py:56-59 | the first occurrence of a marker is found exactly when the marker is `in` the text, and no earlier index holds one |
| `Search.SplitOnce` | monoova_integration/render_diagrams.py:58-64 | `split(sep, 1)` yields one part exactly when `sep` is absent, otherwise the text before and after the first occurrence, which rebuild the input |
| `Bytes.Lower` | monoova_integration/render_diagrams.py:80 | `bytes.lower()` keeps the length and maps each byte by itself: `A`-`Z` to `a`-`z`, every other byte unchanged |
| `Bytes.LowerByte` | monoova_integration/render_diagrams.py:80 | an upper-case ASCII letter moves up by 32 to a byte that is not upper-case; any other byte is unchanged |
| `Bytes.ContainsLower` | monoova_integration/render_diagrams.py:80 | a marker present in the body is present, lower-cased, in the lower-cased body |
| `PlantUmlUrl.Classify` | monoova_integration/render_diagrams.py:54-66 | a URL is rejected as not-http exactly when it lacks the `http` prefix; an extracted suffix is a non-empty proper tail of the URL; the `/plantuml` form needs no `/plantumll` and no `/plantuml/png/` |
| `PlantUmlUrl.DoubleLSuffix` | monoova_integration/render_diagrams.py:56-58 | with `/plantumll` first at index i, the suffix is exactly the text after it, or the URL is rejected when nothing follows |
| `PlantUmlUrl.SingleLSuffix` | monoova_integration/render_diagrams.py:59-66 | without `/plantumll` and `/plantuml/png/`, the suffix is exactly the text after the first `/plantuml`, or rejected when empty |
| `PlantUmlUrl.PngUrlUnrecognized` | monoova_integration/render_diagrams.py:59 | a URL already in `/plantuml/png/` form, without `/plantumll`, is rejected |
| `PlantUmlUrl.ServerFormSuffix` | monoova_integration/render_diagrams.py:48-64 | for the client's form (server URL plus an encoding without `/`), the suffix is the encoding, except that a leading `l` is dropped as the second `l` of `/plantumll` |
| `PlantUmlUrl.PrimaryUrl` | monoova_integration/render_diagrams.py:69 | the primary URL starts with the fixed PNG base and the rest is exactly the suffix |
| `PlantUmlUrl.RetryUrl` | monoova_integration/render_diagrams.py:83 | the retry URL starts with the same base and the rest is `~1` followed by the suffix |
| `PlantUmlUrl.RetryInsertsMarker` | monoova_integration/render_diagrams.py:69-83 | the retry URL is the primary URL with `~1` inserted right before the suffix, and differs from it |
| `Validation.HasPngSignature` | monoova_integration/render_diagrams.py:75 | `content[:8] == signature`, short bodies included, holds exactly when the body starts with the 8-byte PNG signature |
| `Validation.FirstAccepts` | monoova_integration/render_diagrams.py:75-80 | a first response is accepted iff it starts with the signature, has status 200, and has no `HUFFMAN`, no `bad URL`, and no `encoding` in its lower-cased body |
| `Validation.RetryAccepts` | monoova_integration/render_diagrams.py:85-87 | a retry response is accepted iff status 200, signature, and neither `HUFFMAN` nor `bad URL` |
| `Validation.FirstStricterThanRetry` | monoova_integration/render_diagrams.py:75-87 | whatever the first check accepts, the retry check accepts too |
| `Validation.RetryWanted` | monoova_integration/render_diagrams.py:75-119 | an accepted first response is never retried; a refused PNG body and any non-200 response always are; a 200 non-PNG page is retried iff it starts with `<html`, holds `HUFFMAN`, or holds `encoding` in any case |
| `Validation.EncodingAnyCase` | monoova_integration/render_diagrams.py:80 | `encoding` in any mix of cases marks the first response as an error |
| `Validation.EncodingOnlyCheckedFirst` | monoova_integration/render_diagrams.py:75-87 | every 200 PNG body that holds `encoding` in any case, and neither `HUFFMAN` nor `bad URL`, is refused first and accepted on retry |
| `Validation.EncodingOnlyCheckedFirstExample` | monoova_integration/render_diagrams.py:75-87 | the body made of the PNG signature followed by `encoding` is such a response: refused first, accepted on retry |
| `Validation.BadUrlPageNotRetried` | monoova_integration/render_diagrams.py:100-102 | every 200 non-PNG page that does not start with `<html` and holds neither `HUFFMAN` nor `encoding` in any case is neither accepted nor retried, whatever else it shows |
| `Validation.BadUrlPageNotRetriedExample` | monoova_integration/render_diagrams.py:100-102 | a 200 page showing only `bad URL` is such a page: neither accepted nor retried |
| `Protocol.Step` | monoova_integration/render_diagrams.py:72-127 | each protocol step leaves a terminal state alone, strictly advances any other, and uses up at most the fetches it has left |
| `Protocol.RunBounds` | monoova_integration/render_diagrams.py:72-127 | the protocol always ends Accepted or Exhausted, only appends to the fetch log, and makes at most two fetches from NotAttempted |
| `Protocol.RenderFile` | monoova_integration/render_diagrams.py:54-127 | the renderer's branch-by-branch handling of one URL yields the verdict, fetch log and remaining replies of the state machine |
| `Protocol.RunFromStart` | monoova_integration/render_diagrams.py:72-127 | from NotAttempted the protocol, and so `FileSpec`, takes each case of the source: first reply raised; accepted by the first checks; refused and not retried; retried, then raised, accepted by the retry checks, or refused |
| `Protocol.FetchLog` | monoova_integration/render_diagrams.py:66-119 | at most two fetches; none exactly when the URL is rejected; the first is the primary URL, the second the `~1` URL; each takes one reply |
| `Protocol.FirstAcceptedIff` | monoova_integration/render_diagrams.py:75-99 | a file is rendered without retry iff the first reply passes the first checks, and then with one fetch and that reply's bytes |
| `Protocol.SecondFetchIff` | monoova_integration/render_diagrams.py:75-119 | a second fetch happens iff the first reply is a response refused by the first checks and the retry rule asks for a retry |
| `Protocol.RetryVerdict` | monoova_integration/render_diagrams.py:84-127 | after a retry, the file is rendered from the second reply iff it passes the retry checks; a retry that raises fails the file |
| `Protocol.NonPngFirstResponse` | monoova_integration/render_diagrams.py:100-127 | after a non-PNG first reply: with 200, a retry iff `<html` start, `HUFFMAN` or `encoding`; otherwise always a retry; one fetch means failure |
| `Protocol.PrimaryRaised` | monoova_integration/render_diagrams.py:132-138 | a first fetch that raises fails the file after that one fetch |
| `Protocol.RenderedFromReply` | monoova_integration/render_diagrams.py:88-123 | rendered bytes are exactly the body of the reply that passed: the first without retry, the second with it |
| `Renderer.OutputPath` | monoova_integration/render_diagrams.py:39-40 | the image path is the source path without `.plantuml`, followed by `.png` |
| `Renderer.OutputPathInjective` | monoova_integration/render_diagrams.py:39-40 | distinct sources get distinct images, and an image path is never a source path |
| `Renderer.Batch` | monoova_integration/render_diagrams.py:31-143 | every discovered file gets exactly one verdict |
| `Renderer.RenderDiagrams` | monoova_integration/render_diagrams.py:25-143 | the loop over the files ends in the state the per-file specification gives, file after file |
| `Renderer.BatchCounts` | monoova_integration/render_diagrams.py:31-127 | verdicts and fetches are only appended, and the batch makes at most two fetches per file |
| `Renderer.FileStep` | monoova_integration/render_diagrams.py:35-127 | one file appends exactly its verdict and changes only its own image: kept on a read failure, otherwise present exactly when rendered, with the rendered bytes |
| `Renderer.BatchImages` | monoova_integration/render_diagrams.py:42-123 | after the batch each file's image is as `FileStep` says for it, and paths that are no file's image are unchanged |
| `Renderer.SingleFileFirstAttempt` | monoova_integration/render_diagrams.py:69-99 | one file with an accepted 200 PNG reply: one fetch of the primary URL, and `docs/a.png` holds exactly the reply's body |
| `Renderer.SingleFileRetryAfterServerError` | monoova_integration/render_diagrams.py:72-92 | one file whose first reply is a 500 with a PNG body and whose retry passes: the `~1` URL is fetched and `docs/a.png` holds the retry's body |

## Left out

- Directory discovery with `glob.glob` (lines 22-27) is not modelled. The discovered paths are an input, each ending in `.plantuml`. With no paths nothing changes; the "no files" message is not modelled.
- The PlantUML client (lines 19, 48) is foreign code. The URL it returns for each file is an input (`Renderer.Source`). Its deflate-and-base64 encoding is not modelled.
- `requests.get` and its 30-second timeout (lines 72, 84, 106, 119) become the reply oracle. A timeout or transport error is the `Raised` reply. An oracle with no replies left also reads as `Raised`.
- Reading the source (lines 35-36) is modelled only as success or failure. Its text matters only through the client's URL.
- Writing the image (lines 88-89, 95-96, 109-110, 122-123) always succeeds in the model. A write that raises, and a partly written file, are not modelled. Neither is `os.path.getsize`.
- `os.path.exists` and `os.remove` (lines 43-44) become removal of a key from the image map. Their own errors are not modelled.
- `os.path.splitext` is modelled only for paths ending in `.plantuml`, which is all the discovery yields.
- Printing, tracebacks and the Content-Type report (lines 26, 29, 32, 82, 91, 98, 104, 112, 114, 117, 125, 127, 129, 131, 133-138, 141-143) are diagnostics only. The model keeps just the per-file verdict.
- Exceptions (lines 132, 140) are modelled as a `Failed` verdict for that file, after which the loop goes on. Python's exception mechanics are not modelled.
