/** The updates an invocation buffers, and how the indexes read their fields. */
module WriteValues {
  import opened Options
  import opened Overlay

  /** Leaf values; only strings and lists of strings matter to the indexes. */
  datatype Value = Text(text: string) | List(items: seq<string>) | Other(json: string)

  type Write = Update<Value>

  function StringField(fields: Fields<Value>, key: string): Option<string>
  {
    if key in fields && fields[key].Leaf? && fields[key].value.Text? then Some(fields[key].value.text) else None
  }

  function StringListField(fields: Fields<Value>, key: string): Option<seq<string>>
  {
    if key in fields && fields[key].Leaf? && fields[key].value.List? then Some(fields[key].value.items) else None
  }
}
