/** Values shared by every stage of the participant fetcher: the optional
    fields of a decoded JSON object, a participant record and a raw page of
    the metrics API. */
module Records {

  datatype Option<+T> = None | Some(value: T)

  datatype Result<+T, +E> = Ok(value: T) | Err(error: E)

  /** Python's truthiness of an optional string: `None` and `""` are false. */
  predicate Truthy(s: Option<string>) {
    s.Some? && s.value != ""
  }

  /** One entry of a page's `participants` list; `email` and `user_name`
      are looked up with `dict.get`, so either may be absent. */
  datatype Participant = Participant(email: Option<string>, userName: Option<string>)

  /** One decoded API response: its participants in API order and the
      optional continuation token. */
  datatype Page = Page(participants: seq<Participant>, nextPageToken: Option<string>)
}
