/** JSON values, as the configuration sees them: numbers, booleans and null stay abstract. */
module Json {
  import opened Lists

  datatype Value = Object(members: seq<Member>) | Array(items: seq<Value>) | String(text: string) | Other(tag: int)

  datatype Member = Member(key: string, value: Value)

  function Get(members: seq<Member>, key: string): Option<Value> {
    if members == [] then None
    else if members[0].key == key then Some(members[0].value)
    else Get(members[1..], key)
  }
}
