/** The inputs the adapter receives from the log router: the Docker container
    description (go-dockerclient's Container, reduced to the fields the adapter
    reads) and the log message, plus the value shape that JSON decoding yields. */
module Events {

  /** docker.Container: its ID, its Name, and Config.Image, Config.Hostname, Config.Env. */
  datatype Container = Container(
    id: string,
    name: string,
    image: string,
    hostname: string,
    env: seq<string>)

  /** router.Message: the container that wrote the line and the line itself (Data). */
  datatype Message = Message(container: Container, data: string)

  /** A value produced by decoding JSON into `interface{}`. Numbers keep their
      literal text: Go's float64 conversion is not modelled. */
  datatype Json =
    | JNull
    | JBool(b: bool)
    | JNumber(literal: string)
    | JString(s: string)
    | JArray(items: seq<Json>)
    | JObject(members: map<string, Json>)

  /** What json.Unmarshal leaves in the record map it is given. A `null` payload
      sets the map to nil (NilMap). Otherwise the map holds the members decoded
      so far, and `failed` tells whether Unmarshal reported an error: a syntax or
      type error leaves no members, while a number out of float64 range leaves
      the other members in place (and JNull for that one). */
  datatype Unmarshalled =
    | NilMap
    | Members(members: map<string, Json>, failed: bool)
}
