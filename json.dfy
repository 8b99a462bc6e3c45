/** Parsed JSON values, as the JSON library hands them to the converter. */
module Json {

  datatype JValue =
    | JNull
    | JBool(b: bool)
    | JNum(n: real)
    | JStr(s: string)
    | JArr(items: seq<JValue>)
    | JObj(fields: map<string, JValue>)

  /** The members of a JSON object, by key. */
  type JObject = map<string, JValue>
}
