/** The batch renderer: every discovered `.plantuml` file is handled in turn, its image
    `<name>.png` deleted first and written again only with bytes that passed validation.
    The image files are a map from path to contents; what the PlantUML client returns for
    each source file is an input, and the network is the oracle of the Protocol module. */
module Renderer {
  import opened Search
  import opened Bytes
  import opened PlantUmlUrl
  import opened Validation
  import opened Protocol

  const SOURCE_EXT: string := ".plantuml"
  const IMAGE_EXT: string := ".png"

  /** A path that the search for `.plantuml` files in the docs directory yields. */
  predicate IsSourcePath(p: string)
  {
    |p| > |SOURCE_EXT| && p[|p| - |SOURCE_EXT|..] == SOURCE_EXT
  }

  /** The image path: the source path with `.plantuml` replaced by `.png`. */
  function OutputPath(p: string): (out: string)
    requires IsSourcePath(p)
    ensures |out| == |p| - |SOURCE_EXT| + |IMAGE_EXT|
    ensures out[..|out| - |IMAGE_EXT|] == p[..|p| - |SOURCE_EXT|]
    ensures out[|out| - |IMAGE_EXT|..] == IMAGE_EXT
  {
    p[..|p| - |SOURCE_EXT|] + IMAGE_EXT
  }

  /** Distinct sources have distinct images, and an image path is never a source path. */
  lemma OutputPathInjective(p: string, q: string)
    requires IsSourcePath(p) && IsSourcePath(q)
    ensures OutputPath(p) == OutputPath(q) ==> p == q
    ensures !IsSourcePath(OutputPath(p))
  {
    var o := OutputPath(p);
    assert o[|o| - 1] == 'g' && SOURCE_EXT[8] == 'l';
    if o == OutputPath(q) {
      assert p == p[..|p| - 9] + SOURCE_EXT;
      assert q == q[..|q| - 9] + SOURCE_EXT;
    }
  }

  /** What reading a source file and handing it to the PlantUML client gave. */
  datatype Source =
    | ReadFails             // the file could not be read
    | EncodeFails           // the client raised
    | Encoded(url: string)  // the URL the client returned

  /** The image files, the replies still to come, the fetch log and one verdict per file. */
  datatype World = World(images: map<string, Bytes>, net: seq<Reply>, fetched: seq<string>, verdicts: seq<Verdict>)

  /** One file: a read failure leaves its image alone; otherwise the image is deleted, and
      written again only when the protocol renders it. The file adds its verdict and changes
      no other image. */
  function FileStep(w: World, path: string, src: Source): (w': World)
    requires IsSourcePath(path)
    ensures |w'.verdicts| == |w.verdicts| + 1 && w'.verdicts[..|w.verdicts|] == w.verdicts
    ensures forall k | k != OutputPath(path) :: Lookup(w'.images, k) == Lookup(w.images, k)
    ensures ImageAfter(w.images, w'.images, OutputPath(path), src, w'.verdicts[|w.verdicts|])
  {
    var out := OutputPath(path);
    match src
    case ReadFails => w.(verdicts := w.verdicts + [Failed(Unreadable)])
    case EncodeFails => w.(images := w.images - {out}, verdicts := w.verdicts + [Failed(EncoderRaised)])
    case Encoded(url) =>
      var f := FileSpec(url, w.net);
      var images := if f.verdict.Rendered? then (w.images - {out})[out := f.verdict.content] else w.images - {out};
      World(images, f.rest, w.fetched + f.fetched, w.verdicts + [f.verdict])
  }

  predicate AllSources(paths: seq<string>)
  {
    forall i | 0 <= i < |paths| :: IsSourcePath(paths[i])
  }

  /** The files handled in order, the last one last. */
  function Batch(w: World, paths: seq<string>, sources: seq<Source>): (w': World)
    requires |paths| == |sources| && AllSources(paths)
    ensures |w'.verdicts| == |w.verdicts| + |paths|
    decreases |paths|
  {
    if paths == [] then w
    else
      var n := |paths| - 1;
      FileStep(Batch(w, paths[..n], sources[..n]), paths[n], sources[n])
  }

  /** The renderer's loop over the discovered files. */
  method RenderDiagrams(paths: seq<string>, sources: seq<Source>, images: map<string, Bytes>, net: seq<Reply>)
    returns (images': map<string, Bytes>, verdicts: seq<Verdict>, fetched: seq<string>, rest: seq<Reply>)
    requires |paths| == |sources| && AllSources(paths)
    ensures World(images', rest, fetched, verdicts) == Batch(World(images, net, [], []), paths, sources)
  {
    images', verdicts, fetched, rest := images, [], [], net;
    if |paths| == 0 {
      return;
    }
    ghost var w0 := World(images, net, [], []);
    var i := 0;
    while i < |paths|
      invariant 0 <= i <= |paths|
      invariant World(images', rest, fetched, verdicts) == Batch(w0, paths[..i], sources[..i])
    {
      BatchSnoc(w0, paths, sources, i);
      ghost var before := World(images', rest, fetched, verdicts);
      var out := OutputPath(paths[i]);
      match sources[i] {
        case ReadFails =>
          verdicts := verdicts + [Failed(Unreadable)];
        case EncodeFails =>
          if out in images' { images' := images' - {out}; } else { RemoveAbsent(images', out); }
          verdicts := verdicts + [Failed(EncoderRaised)];
        case Encoded(url) =>
          if out in images' { images' := images' - {out}; } else { RemoveAbsent(images', out); }
          var verdict, log;
          verdict, log, rest := RenderFile(url, rest);
          EncodedStep(before, paths[i], url, FileRun(verdict, log, rest));
          if verdict.Rendered? {
            images' := images'[out := verdict.content];
          }
          fetched := fetched + log;
          verdicts := verdicts + [verdict];
      }
      assert World(images', rest, fetched, verdicts) == FileStep(before, paths[i], sources[i]);
      i := i + 1;
    }
    assert paths[..i] == paths && sources[..i] == sources;
  }

  /** Removing a path that is not there changes nothing. */
  lemma RemoveAbsent(m: map<string, Bytes>, k: string)
    requires k !in m
    ensures m - {k} == m
  {
  }

  /** The batch of the first `i + 1` files is that of the first `i`, then file `i`. */
  lemma BatchSnoc(w: World, paths: seq<string>, sources: seq<Source>, i: nat)
    requires |paths| == |sources| && AllSources(paths) && i < |paths|
    ensures Batch(w, paths[..i + 1], sources[..i + 1]) == FileStep(Batch(w, paths[..i], sources[..i]), paths[i], sources[i])
  {
    assert paths[..i + 1][..i] == paths[..i] && sources[..i + 1][..i] == sources[..i];
  }

  /** The batch of a non-empty list is that of all but the last file, then the last file. */
  lemma BatchLast(w: World, paths: seq<string>, sources: seq<Source>)
    requires |paths| == |sources| && AllSources(paths) && paths != []
    ensures var n := |paths| - 1;
      Batch(w, paths, sources) == FileStep(Batch(w, paths[..n], sources[..n]), paths[n], sources[n])
  {
  }

  /** A file with a client URL, in terms of the outcome `f` of its protocol run. */
  lemma EncodedStep(w: World, path: string, url: string, f: FileRun)
    requires IsSourcePath(path) && f == FileSpec(url, w.net)
    ensures var out := OutputPath(path);
      FileStep(w, path, Encoded(url)) ==
        World(if f.verdict.Rendered? then (w.images - {out})[out := f.verdict.content] else w.images - {out},
              f.rest, w.fetched + f.fetched, w.verdicts + [f.verdict])
  {
  }

  function Lookup(m: map<string, Bytes>, k: string): Option<Bytes>
  {
    if k in m then Some(m[k]) else None
  }

  /** Verdicts and fetches are only appended, and each file makes at most two fetches. */
  lemma {:induction false} BatchCounts(w: World, paths: seq<string>, sources: seq<Source>)
    requires |paths| == |sources| && AllSources(paths)
    ensures var w' := Batch(w, paths, sources);
      w.verdicts <= w'.verdicts &&
      w.fetched <= w'.fetched && |w'.fetched| <= |w.fetched| + 2 * |paths|
    decreases |paths|
  {
    if paths != [] {
      var n := |paths| - 1;
      var v := Batch(w, paths[..n], sources[..n]);
      BatchCounts(w, paths[..n], sources[..n]);
      if sources[n].Encoded? {
        FetchLog(sources[n].url, v.net);
      }
    }
  }

  predicate Distinct(paths: seq<string>)
  {
    forall i, j | 0 <= i < j < |paths| :: paths[i] != paths[j]
  }

  /** Where a file leaves its image `out`, given its source and its verdict. */
  predicate ImageAfter(before: map<string, Bytes>, after: map<string, Bytes>, out: string, src: Source, v: Verdict)
  {
    if src.ReadFails? then Lookup(after, out) == Lookup(before, out)
    else Lookup(after, out) == if v.Rendered? then Some(v.content) else None
  }

  /** `k` is the image path of none of the files. */
  predicate NoImageOf(paths: seq<string>, k: string)
    requires AllSources(paths)
  {
    forall i | 0 <= i < |paths| :: k != OutputPath(paths[i])
  }

  /** Where the files `paths` left the images, their verdicts starting at index `base`: the
      image of a file whose source could not be read is as before; the image of any other
      file exists exactly when the file was rendered, and then holds the rendered bytes;
      paths that are no file's image are as before. */
  ghost predicate ImagesPlaced(before: map<string, Bytes>, after: World, base: nat, paths: seq<string>, sources: seq<Source>)
    requires |paths| == |sources| && AllSources(paths) && |after.verdicts| >= base + |paths|
  {
    (forall i | 0 <= i < |paths| ::
      ImageAfter(before, after.images, OutputPath(paths[i]), sources[i], after.verdicts[base + i])) &&
    (forall k | NoImageOf(paths, k) :: Lookup(after.images, k) == Lookup(before, k))
  }

  /** The last file of `paths`, after the others: given where the others left the images
      (`v`) and what the last file does to them (`u`), every image is where the per-file rule
      says. */
  lemma SnocImages(before: map<string, Bytes>, base: nat, v: World, u: World, paths: seq<string>, sources: seq<Source>)
    requires |paths| == |sources| && AllSources(paths) && Distinct(paths) && paths != []
    requires |v.verdicts| == base + |paths| - 1
    requires ImagesPlaced(before, v, base, paths[..|paths| - 1], sources[..|paths| - 1])
    requires var last := OutputPath(paths[|paths| - 1]);
      |u.verdicts| == |v.verdicts| + 1 && u.verdicts[..|v.verdicts|] == v.verdicts &&
      (forall k | k != last :: Lookup(u.images, k) == Lookup(v.images, k)) &&
      ImageAfter(v.images, u.images, last, sources[|paths| - 1], u.verdicts[|v.verdicts|])
    ensures ImagesPlaced(before, u, base, paths, sources)
  {
    var n := |paths| - 1;
    var last := OutputPath(paths[n]);
    assert NoImageOf(paths[..n], last) by {
      forall i | 0 <= i < n ensures last != OutputPath(paths[..n][i]) {
        OutputPathInjective(paths[i], paths[n]);
      }
    }
    forall i | 0 <= i < |paths|
      ensures ImageAfter(before, u.images, OutputPath(paths[i]), sources[i], u.verdicts[base + i])
    {
      if i < n {
        OutputPathInjective(paths[i], paths[n]);
        assert paths[..n][i] == paths[i] && sources[..n][i] == sources[i];
        assert u.verdicts[base + i] == v.verdicts[base + i];
      }
    }
    forall k | NoImageOf(paths, k) ensures Lookup(u.images, k) == Lookup(before, k) {
      assert k != last;
      assert NoImageOf(paths[..n], k) by {
        forall i | 0 <= i < n ensures k != OutputPath(paths[..n][i]) { assert paths[..n][i] == paths[i]; }
      }
    }
  }

  /** Where the batch leaves each image: as `ImagesPlaced` says, for every file. */
  lemma {:induction false} BatchImages(w: World, paths: seq<string>, sources: seq<Source>)
    requires |paths| == |sources| && AllSources(paths) && Distinct(paths)
    ensures ImagesPlaced(w.images, Batch(w, paths, sources), |w.verdicts|, paths, sources)
    decreases |paths|
  {
    if paths != [] {
      var n := |paths| - 1;
      assert Distinct(paths[..n]);
      BatchImages(w, paths[..n], sources[..n]);
      BatchLast(w, paths, sources);
      SnocImages(w.images, |w.verdicts|, Batch(w, paths[..n], sources[..n]), Batch(w, paths, sources), paths, sources);
    }
  }

  /** A batch of the one source `docs/a.plantuml`, whose client URL is `url`. */
  lemma OneEncodedFile(images: map<string, Bytes>, net: seq<Reply>, url: string)
    ensures Batch(World(images, net, [], []), ["docs/a.plantuml"], [Encoded(url)]) ==
      var f := FileSpec(url, net);
      World(if f.verdict.Rendered? then images["docs/a.png" := f.verdict.content] else images - {"docs/a.png"},
            f.rest, f.fetched, [f.verdict])
  {
    assert OutputPath("docs/a.plantuml") == "docs/a.png";
    var f := FileSpec(url, net);
    if f.verdict.Rendered? {
      assert (images - {"docs/a.png"})["docs/a.png" := f.verdict.content] == images["docs/a.png" := f.verdict.content];
    }
  }

  lemma FirstAttemptRun(e: string, body: Bytes)
    requires e != [] && e[0] != 'l' && forall k | 0 <= k < |e| :: e[k] != '/'
    requires FirstAccepts(Response(200, body))
    ensures FileSpec(SERVER_URL + e, [Got(Response(200, body))]) == FileRun(Rendered(body, false), [PrimaryUrl(e)], [])
  {
    ServerFormSuffix(e);
    RunFromStart(e, [Got(Response(200, body))]);
  }

  lemma RetryAfterServerErrorRun(e: string, first: Bytes, second: Bytes)
    requires e != [] && e[0] != 'l' && forall k | 0 <= k < |e| :: e[k] != '/'
    requires StartsWith(first, PNG_SIGNATURE)
    requires RetryAccepts(Response(200, second))
    ensures FileSpec(SERVER_URL + e, [Got(Response(500, first)), Got(Response(200, second))]) ==
      FileRun(Rendered(second, true), [PrimaryUrl(e), RetryUrl(e)], [])
  {
    var net := [Got(Response(500, first)), Got(Response(200, second))];
    ServerFormSuffix(e);
    RunFromStart(e, net);
    assert net[1..][1..] == [];
  }

  /** One source `docs/a.plantuml` whose client URL is the server URL followed by the
      encoded string `e`, and a server reply of status 200 with a PNG body free of error
      markers: `docs/a.png` is created with exactly that body after one fetch. */
  lemma SingleFileFirstAttempt(e: string, body: Bytes, images: map<string, Bytes>)
    requires e != [] && e[0] != 'l' && forall k | 0 <= k < |e| :: e[k] != '/'
    requires FirstAccepts(Response(200, body))
    ensures var w' := Batch(World(images, [Got(Response(200, body))], [], []), ["docs/a.plantuml"], [Encoded(SERVER_URL + e)]);
      w'.fetched == [PrimaryUrl(e)] && w'.verdicts == [Rendered(body, false)] &&
      w'.images == images["docs/a.png" := body]
  {
    FirstAttemptRun(e, body);
    OneEncodedFile(images, [Got(Response(200, body))], SERVER_URL + e);
  }

  /** The same source, a first reply of status 500 with a PNG body, and a second reply of
      status 200 with a PNG body free of `HUFFMAN` and `bad URL`: the `~1` URL is fetched and
      `docs/a.png` is created with the second body. */
  lemma SingleFileRetryAfterServerError(e: string, first: Bytes, second: Bytes, images: map<string, Bytes>)
    requires e != [] && e[0] != 'l' && forall k | 0 <= k < |e| :: e[k] != '/'
    requires StartsWith(first, PNG_SIGNATURE)
    requires RetryAccepts(Response(200, second))
    ensures var net := [Got(Response(500, first)), Got(Response(200, second))];
      var w' := Batch(World(images, net, [], []), ["docs/a.plantuml"], [Encoded(SERVER_URL + e)]);
      w'.fetched == [PrimaryUrl(e), RetryUrl(e)] && w'.verdicts == [Rendered(second, true)] &&
      w'.images == images["docs/a.png" := second]
  {
    RetryAfterServerErrorRun(e, first, second);
    OneEncodedFile(images, [Got(Response(500, first)), Got(Response(200, second))], SERVER_URL + e);
  }
}
