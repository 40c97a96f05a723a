/**
 * The response envelope every service returns: `standardiseResponse` and the
 * `StandardResponse`, `Pagination` and `Sorting` shapes.
 */
module Api {
  import opened Wrappers
  import Js

  datatype Pagination = Pagination(page: int, pageSize: int, totalItems: int, totalPages: int)

  /** The string literal type `"asc" | "desc"`. */
  datatype SortOrder = Asc | Desc

  datatype Sorting = Sorting(sortBy: string, sortOrder: SortOrder)

  /** The wire spelling of a sort order: exactly one of the two literals, and
      different orders are spelt differently. */
  function SortOrderName(o: SortOrder): (r: string)
    ensures r == "asc" || r == "desc"
    ensures r == "asc" <==> o == Asc
  {
    match o
    case Asc => "asc"
    case Desc => "desc"
  }

  /** The argument of `standardiseResponse`; an absent optional field is `None`. */
  datatype Props<T> = Props(
    message: string,
    httpStatus: int,
    data: Option<T>,
    error: Option<Js.Value>,
    pagination: Option<Pagination>,
    sorting: Option<Sorting>)

  datatype StandardResponse<T> = StandardResponse(
    httpStatus: int,
    message: string,
    data: Option<T>,
    error: Option<Js.Value>,
    pagination: Option<Pagination>,
    sorting: Option<Sorting>)

  /** Total pass-through: every field of the result is the same field of the
      argument, absent fields stay absent and nothing is defaulted. */
  function StandardiseResponse<T>(p: Props<T>): (r: StandardResponse<T>)
    ensures r.httpStatus == p.httpStatus && r.message == p.message
    ensures r.data == p.data && r.error == p.error
    ensures r.pagination == p.pagination && r.sorting == p.sorting
  {
    StandardResponse(p.httpStatus, p.message, p.data, p.error, p.pagination, p.sorting)
  }

  /** The arguments a response was built from. */
  function PropsOf<T>(r: StandardResponse<T>): Props<T> {
    Props(r.message, r.httpStatus, r.data, r.error, r.pagination, r.sorting)
  }

  /** The envelope loses nothing: its arguments can be read back from it... */
  lemma PropsOfStandardise<T>(p: Props<T>)
    ensures PropsOf(StandardiseResponse(p)) == p
  {
  }

  /** ...and every response is the envelope of some arguments, so no response
      shape lies outside what `standardiseResponse` can build. */
  lemma StandardiseInverse<T>(r: StandardResponse<T>)
    ensures StandardiseResponse(PropsOf(r)) == r
  {
  }

  /** The envelopes the services build: status, message and an optional payload,
      with no error, pagination or sorting. */
  function Reply<T>(httpStatus: int, message: string, data: Option<T>): (r: StandardResponse<T>)
    ensures r.httpStatus == httpStatus && r.message == message && r.data == data
    ensures r.error.None? && r.pagination.None? && r.sorting.None?
  {
    StandardiseResponse(Props(message, httpStatus, data, None, None, None))
  }
}
