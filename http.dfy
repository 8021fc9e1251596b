/** What an Express middleware or handler does with a request. */
module Http {

  /**
   * `Next`: the middleware calls `next()`. `Fail`: it answers `status` with
   * `{ error }`. `Invalid`: it answers 400 with the schema's error list. `Ok`: the
   * handler answers 200 with its payload.
   */
  datatype Reply = Next | Fail(status: int, error: string) | Invalid | Ok

  /**
   * One field of a JSON request body as a zod schema sees it: absent, `null`, a
   * string, or a value of some other JSON type.
   */
  datatype JsonValue = Missing | Null | Text(s: string) | OtherType
}
