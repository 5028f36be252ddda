/**
 * The browser storage the login page writes and the vehicle page reads:
 * the token under "resq.rv.jwt" and the vehicle record under "resq.rv.info".
 */
module Session {
  import opened Options
  import opened JsNumber

  /**
   * The text held under "resq.rv.info", described by what `JSON.parse`
   * makes of it: a value, or a text it rejects (the empty text included).
   */
  datatype StoredText = Unparsable(raw: string) | Parsed(value: JsValue)

  /** The two storage slots; `None` is a key that was never set. */
  datatype Storage = Storage(jwt: Option<string>, info: Option<StoredText>)

  const EmptyStorage: Storage := Storage(None, None)
}
