/**
  Shared vocabulary: optional values, and the paginated REST responses every
  hook consumes (`{ projects, total, has_more }`), together with the ways a
  request can fail.
 */
module Common {

  datatype Option<T> = None | Some(value: T)

  /** A computed value, or the message of the error thrown while computing it. */
  datatype Result<T> = Success(value: T) | Failure(error: string)

  /** One page of the listings API: the items, the server's `total` and `has_more`. */
  datatype Page<T> = Page(items: seq<T>, total: int, hasMore: bool)

  /**
    What one awaited `fetch(...)` followed by `response.json()` produces:
    a page, a response whose `ok` flag is false, or a rejected promise.
    A rejection carries the thrown value's message when it is an `Error`
    and `None` when something else was thrown.
   */
  datatype Response<T> =
    | Ok(page: Page<T>)
    | HttpError
    | Rejected(error: Option<string>)

  /** The query parameters `page`, `limit` and `offset` of one page request. */
  datatype PageRequest = PageRequest(page: nat, limit: nat, offset: int)

  /** The request for page `page`: every hook sends `offset = (page - 1) * limit`. */
  function RequestFor(page: nat, limit: nat): PageRequest
  {
    PageRequest(page, limit, (page - 1) * limit)
  }

  /**
    The message a hook's `catch` stores: the hook's own text for a response
    that is not ok, the thrown error's message, or 'An error occurred' when
    the thrown value is not an `Error`.
   */
  function ErrorText<T>(r: Response<T>, notOkMessage: string): string
    requires !r.Ok?
  {
    match r
    case HttpError => notOkMessage
    case Rejected(Some(m)) => m
    case Rejected(None) => "An error occurred"
  }

  /** The items of a page, or nothing for a failed response. */
  function ItemsOf<T>(r: Response<T>): seq<T>
  {
    if r.Ok? then r.page.items else []
  }

  /** Removes the element at index `i`, keeping the others in order. */
  function RemoveAt<T>(s: seq<T>, i: nat): (r: seq<T>)
    requires i < |s|
    ensures |r| == |s| - 1
    ensures forall j :: 0 <= j < i ==> r[j] == s[j]
    ensures forall j :: i <= j < |r| ==> r[j] == s[j + 1]
  {
    s[..i] + s[i + 1..]
  }
}
