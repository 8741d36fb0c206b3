/**
 * The same-origin blob endpoint `/api/upload`: the status code and JSON body
 * each handler answers with, as a function of whether the storage token is
 * configured, the shape of the request body, and the outcome of the single
 * call into the blob service (`del` or `handleUpload`). No state is kept here;
 * what a successful `del` removes is applied by `Cloud.Effect`.
 */
module BlobRoute {
  import opened Wrappers
  import Text

  const TokenMissing := "The Vercel Blob storage token is not set. Please connect a store in your Vercel project settings."
  const InvalidUrlList := "Invalid URL list provided."
  const DeleteFailedPrefix := "Failed to delete files: "

  /** The content types the upload token permits (`onBeforeGenerateToken`). */
  const AllowedContentTypes: seq<string> := ["image/jpeg", "image/png", "image/gif", "image/webp"]

  /** The JSON bodies the route sends back. */
  datatype Body =
    | ErrorBody(error: string)
    | SuccessBody               // { success: true }
    | UploadBody(json: string)  // whatever `handleUpload` returned
    | Unhandled                 // the framework's reply to an exception the handler does not catch

  /** `NextResponse.json(body, { status })`; the status defaults to 200. */
  datatype Response = Response(status: int, body: Body) {
    /** `response.ok` on the client side. */
    predicate Ok() { 200 <= status <= 299 }
  }

  /** The `urls` field of a DELETE request body. */
  datatype DeleteRequest =
    | Unreadable                // not JSON, or JSON `null`: reading the body or destructuring `urls` throws
    | UrlsMissing               // no `urls` field (or a falsy one)
    | UrlsNotArray              // present but not an array
    | UrlList(urls: seq<string>)

  predicate ContentTypeAllowed(contentType: string) {
    contentType in AllowedContentTypes
  }

  /** Whether the DELETE handler reaches its one `del(urls)` call. */
  predicate CallsDel(tokenSet: bool, request: DeleteRequest) {
    tokenSet && request.UrlList?
  }

  /**
   * DELETE: reading the body comes first and throws on an unreadable one;
   * then the token check, then the body shape, then `del` (whose failure,
   * if any, is `delError`).
   */
  function Delete(tokenSet: bool, request: DeleteRequest, delError: Option<string>): (r: Response)
    ensures request.Unreadable? ==> r == Response(500, Unhandled)
    ensures !request.Unreadable? && !tokenSet ==> r == Response(500, ErrorBody(TokenMissing))
    ensures tokenSet && (request.UrlsMissing? || request.UrlsNotArray?) ==> r == Response(400, ErrorBody(InvalidUrlList))
    ensures CallsDel(tokenSet, request) && delError.None? ==> r == Response(200, SuccessBody)
    ensures CallsDel(tokenSet, request) && delError.Some? ==>
              r == Response(500, ErrorBody(DeleteFailedPrefix + delError.value))
    ensures r.Ok() <==> CallsDel(tokenSet, request) && delError.None?
  {
    if request.Unreadable? then Response(500, Unhandled)
    else if !tokenSet then Response(500, ErrorBody(TokenMissing))
    else if !request.UrlList? then Response(400, ErrorBody(InvalidUrlList))
    else match delError
      case None => Response(200, SuccessBody)
      case Some(m) => Response(500, ErrorBody(DeleteFailedPrefix + m))
  }

  /**
   * POST: a body that is not JSON throws before anything else; without a
   * token the route answers 500 before `handleUpload` runs; otherwise
   * `handled` is what `handleUpload` returned or the message it threw.
   */
  function Post(bodyIsJson: bool, tokenSet: bool, handled: Result<string>): (r: Response)
    ensures !bodyIsJson ==> r == Response(500, Unhandled)
    ensures bodyIsJson && !tokenSet ==> r == Response(500, ErrorBody(TokenMissing))
    ensures bodyIsJson && tokenSet && handled.Failure? ==> r == Response(400, ErrorBody(handled.error))
    ensures bodyIsJson && tokenSet && handled.Success? ==> r == Response(200, UploadBody(handled.value))
    ensures r.Ok() <==> bodyIsJson && tokenSet && handled.Success?
  {
    if !bodyIsJson then Response(500, Unhandled)
    else if !tokenSet then Response(500, ErrorBody(TokenMissing))
    else match handled
      case Success(json) => Response(200, UploadBody(json))
      case Failure(m) => Response(400, ErrorBody(m))
  }

  /**
   * Every content type the route accepts passes the client's `image/` filter,
   * but not conversely: an `image/svg+xml` file is offered for upload and refused.
   */
  lemma ClientFilterIsWider()
    ensures forall t :: ContentTypeAllowed(t) ==> Text.StartsWith(t, "image/")
    ensures Text.StartsWith("image/svg+xml", "image/") && !ContentTypeAllowed("image/svg+xml")
  {
    assert "image/svg+xml"[..6] == "image/";
    forall t | ContentTypeAllowed(t) ensures Text.StartsWith(t, "image/") {
      assert t == "image/jpeg" || t == "image/png" || t == "image/gif" || t == "image/webp";
      assert t[..6] == "image/";
    }
  }
}
