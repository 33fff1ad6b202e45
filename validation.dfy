/** The checks the renderer applies to a response of the PlantUML server: the PNG file
    signature, the markers of an error rendered as an image, and which responses are
    accepted, and which retried, on each of the two attempts. */
module Validation {
  import opened Search
  import opened Bytes

  /** An HTTP response: its status code and its body. */
  datatype Response = Response(status: int, content: Bytes)

  const OK: int := 200

  /** The 8-byte PNG file signature (section 5.2 of the PNG specification, ISO/IEC 15948). */
  const PNG_SIGNATURE: Bytes := [0x89, 0x50, 0x4E, 0x47, 0x0D, 0x0A, 0x1A, 0x0A]

  const HUFFMAN: Bytes := Ascii("HUFFMAN")
  const BAD_URL: Bytes := Ascii("bad URL")
  const ENCODING: Bytes := Ascii("encoding")
  const HTML_OPEN: Bytes := Ascii("<html")

  /** The body's first 8 bytes equal the PNG signature. The slice `content[:8]` stops at the
      end of a shorter body, which then never matches. */
  predicate HasPngSignature(content: Bytes): (b: bool)
    ensures b <==> StartsWith(content, PNG_SIGNATURE)
  {
    content[..if |content| < 8 then |content| else 8] == PNG_SIGNATURE
  }

  /** The error markers looked for in the first response: `HUFFMAN` or `bad URL` in the
      body, or `encoding` in the lower-cased body. */
  predicate ShowsError(content: Bytes)
  {
    Contains(content, HUFFMAN) || Contains(content, BAD_URL) || Contains(Lower(content), ENCODING)
  }

  /** The error markers looked for in the retry response: `encoding` is not among them. */
  predicate ShowsRetryError(content: Bytes)
  {
    Contains(content, HUFFMAN) || Contains(content, BAD_URL)
  }

  /** The three ways the first response is handled. */
  datatype Branch =
    | PngBody    // the body starts with the PNG signature, whatever the status
    | OkNotPng   // status 200 with some other body
    | BadStatus  // any other status with some other body

  function BranchOf(r: Response): (b: Branch)
    ensures b == PngBody <==> HasPngSignature(r.content)
    ensures b == BadStatus ==> r.status != OK
  {
    if HasPngSignature(r.content) then PngBody
    else if r.status == OK then OkNotPng
    else BadStatus
  }

  /** The first response is written out as it is: exactly when it starts with the PNG
      signature, has status 200, and shows none of the three error markers. */
  predicate FirstAccepts(r: Response): (b: bool)
    ensures b <==>
      StartsWith(r.content, PNG_SIGNATURE) && r.status == 200 &&
      !Contains(r.content, HUFFMAN) && !Contains(r.content, BAD_URL) && !Contains(Lower(r.content), ENCODING)
  {
    BranchOf(r) == PngBody && !(r.status != OK || ShowsError(r.content))
  }

  /** A first response that was not accepted leads to the `~1` retry. An accepted response
      never does; a refused PNG body and any status other than 200 always do; a 200 page that
      is not a PNG does only when it starts with `<html`, holds `HUFFMAN`, or holds `encoding`
      in any case. */
  predicate RetryWanted(r: Response): (b: bool)
    ensures FirstAccepts(r) ==> !b
    ensures (StartsWith(r.content, PNG_SIGNATURE) || r.status != OK) && !FirstAccepts(r) ==> b
    ensures r.status == OK && !StartsWith(r.content, PNG_SIGNATURE) ==>
      (b <==> StartsWith(r.content, HTML_OPEN) || Contains(r.content, HUFFMAN) || Contains(Lower(r.content), ENCODING))
  {
    match BranchOf(r)
    case PngBody => r.status != OK || ShowsError(r.content)
    case OkNotPng =>
      StartsWith(r.content, HTML_OPEN) || Contains(r.content, HUFFMAN) || Contains(Lower(r.content), ENCODING)
    case BadStatus => true
  }

  /** The retry response is written out: exactly when it has status 200, starts with the
      PNG signature, and contains neither `HUFFMAN` nor `bad URL`. */
  predicate RetryAccepts(r: Response): (b: bool)
    ensures b <==>
      r.status == 200 && StartsWith(r.content, PNG_SIGNATURE) &&
      !Contains(r.content, HUFFMAN) && !Contains(r.content, BAD_URL)
  {
    r.status == OK && HasPngSignature(r.content) && !ShowsRetryError(r.content)
  }

  /** Whatever is accepted on the first attempt would be accepted on the retry. */
  lemma FirstStricterThanRetry(r: Response)
    requires FirstAccepts(r)
    ensures RetryAccepts(r)
  {
  }

  /** `encoding` written in any mix of cases counts as the error marker on the first attempt. */
  lemma EncodingAnyCase(content: Bytes, marker: Bytes)
    requires Lower(marker) == ENCODING && Contains(content, marker)
    ensures ShowsError(content)
  {
    ContainsLower(content, marker);
  }

  lemma ByteAbsent(content: Bytes, b: byte, marker: Bytes)
    requires |marker| > 0 && marker[0] == b
    requires forall i | 0 <= i < |content| :: content[i] != b
    ensures !Contains(content, marker)
  {
  }

  /** The retry does not look for `encoding`: a PNG with status 200 that holds `encoding`
      in any case, and neither `HUFFMAN` nor `bad URL`, is refused on the first attempt and
      accepted on the retry. */
  lemma EncodingOnlyCheckedFirst(r: Response)
    requires r.status == OK && HasPngSignature(r.content) && !ShowsRetryError(r.content)
    requires Contains(Lower(r.content), ENCODING)
    ensures !FirstAccepts(r) && RetryAccepts(r)
  {
  }

  /** Such a response exists: the PNG signature followed by `encoding`. */
  lemma EncodingOnlyCheckedFirstExample()
    ensures var r := Response(OK, PNG_SIGNATURE + ENCODING);
      !FirstAccepts(r) && RetryAccepts(r)
  {
    var c := PNG_SIGNATURE + ENCODING;
    assert c[..8] == PNG_SIGNATURE;
    assert forall i | 0 <= i < |c| :: c[i] != 72 && c[i] != 98;
    ByteAbsent(c, 72, HUFFMAN);
    ByteAbsent(c, 98, BAD_URL);
    LowerOfLowercase(ENCODING);
    assert OccursAt(c, ENCODING, 8);
    EncodingAnyCase(c, ENCODING);
    EncodingOnlyCheckedFirst(Response(OK, c));
  }

  /** On the first attempt, a 200 page that is not a PNG, does not start with `<html`, and
      holds neither `HUFFMAN` nor `encoding` in any case is neither accepted nor retried,
      whatever else it shows: `bad URL` in particular is not among the markers the non-PNG
      branch looks for. */
  lemma BadUrlPageNotRetried(r: Response)
    requires r.status == OK && !HasPngSignature(r.content)
    requires !StartsWith(r.content, HTML_OPEN) && !Contains(r.content, HUFFMAN) && !Contains(Lower(r.content), ENCODING)
    ensures !FirstAccepts(r) && !RetryWanted(r)
  {
  }

  /** Such a page exists: one that shows only `bad URL`. */
  lemma BadUrlPageNotRetriedExample()
    ensures var r := Response(OK, BAD_URL);
      Contains(r.content, BAD_URL) && !FirstAccepts(r) && !RetryWanted(r)
  {
    assert BAD_URL[0] == 98;
    assert forall i | 0 <= i < |BAD_URL| :: BAD_URL[i] != 72;
    ByteAbsent(BAD_URL, 72, HUFFMAN);
    assert !StartsWith(BAD_URL, HTML_OPEN) by { assert HTML_OPEN[0] == 60; }
    assert OccursAt(BAD_URL, BAD_URL, 0);
    assert !Contains(Lower(BAD_URL), ENCODING) by {
      assert |Lower(BAD_URL)| < |ENCODING|;
    }
    BadUrlPageNotRetried(Response(OK, BAD_URL));
  }
}
