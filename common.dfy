/** Values shared by the retrieval pipeline, the ingestion step and the chunker. */
module Common {

  datatype Option<+T> = None | Some(value: T)

  /** The ways a query can fail. `TypeMismatch` stands for the Python
      AttributeError/TypeError raised when a decoded reply has an unexpected
      shape; `NoResults` for the `exit(1)` taken when nothing matched. */
  datatype Failure =
    | InvalidQuery
    | NoResults
    | EmbeddingFailure
    | MalformedResponse
    | TypeMismatch

  datatype Result<+T> = Ok(value: T) | Err(error: Failure)

  /** One row of the `messages` table as the retrieval code reads it:
      (message_id, name, timestamp, contents, attachments, link).
      The timestamp is counted in whole seconds. */
  datatype Message = Message(
    id: int,
    name: string,
    timestamp: int,
    contents: string,
    attachments: string,
    link: string)

  /** A decoded JSON document. Numbers with a fraction or an exponent are
      kept as `JFrac`; their value is not modelled. An object keeps its
      members in document order, duplicates included. */
  datatype Json =
    | JNull
    | JBool(b: bool)
    | JInt(i: int)
    | JFrac
    | JString(s: string)
    | JArray(items: seq<Json>)
    | JObject(members: seq<(string, Json)>)
}
