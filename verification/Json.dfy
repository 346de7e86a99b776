/** JSON payloads as value trees.

    Decoding a JSON object forgets field order, repeated keys and white space,
    and the encoder writes keys in a fixed order; so the decoded tree stands for
    its canonical text. Number literals stay text, as the decoder keeps them. */
module Json {

  datatype Json =
    | Null
    | Bool(flag: bool)
    | Num(literal: string)
    | Str(text: string)
    | Arr(items: seq<Json>)
    | Obj(fields: map<string, Json>)

  /** A raw message: nothing, bytes that are not one JSON value, or one value. */
  datatype Raw = NoBytes | NotJson | Doc(value: Json)

  predicate IsObject(raw: Raw) {
    raw.Doc? && raw.value.Obj?
  }

  /** What a PostgreSQL jsonb column gives back. The tree is kept, but every
      number goes through the numeric type and is written anew: `shown` is the
      text the server shows for a literal. */
  function ThroughJsonb(shown: string -> string, j: Json): Json {
    match j
    case Null => j
    case Bool(_) => j
    case Num(literal) => Num(shown(literal))
    case Str(_) => j
    case Arr(items) => Arr(seq(|items|, i requires 0 <= i < |items| => ThroughJsonb(shown, items[i])))
    case Obj(fields) => Obj(map k | k in fields :: ThroughJsonb(shown, fields[k]))
  }

  /** Every number literal is already written the way the server writes it. */
  predicate NumbersAsShown(shown: string -> string, j: Json) {
    match j
    case Null => true
    case Bool(_) => true
    case Num(literal) => shown(literal) == literal
    case Str(_) => true
    case Arr(items) => forall i | 0 <= i < |items| :: NumbersAsShown(shown, items[i])
    case Obj(fields) => forall k | k in fields :: NumbersAsShown(shown, fields[k])
  }

  /** A value survives the column unchanged exactly when the server would write
      each of its numbers the same way. */
  lemma {:induction false} JsonbKeepsExactly(shown: string -> string, j: Json)
    ensures ThroughJsonb(shown, j) == j <==> NumbersAsShown(shown, j)
  {
    match j
    case Null =>
    case Bool(_) =>
    case Num(_) =>
    case Str(_) =>
    case Arr(items) =>
      forall i | 0 <= i < |items| { JsonbKeepsExactly(shown, items[i]); }
      var back := ThroughJsonb(shown, j).items;
      if NumbersAsShown(shown, j) {
        assert back == items;
      } else {
        var i :| 0 <= i < |items| && !NumbersAsShown(shown, items[i]);
        assert back[i] != items[i];
      }
    case Obj(fields) =>
      forall k | k in fields { JsonbKeepsExactly(shown, fields[k]); }
      var back := ThroughJsonb(shown, j).fields;
      if NumbersAsShown(shown, j) {
        assert back == fields;
      } else {
        var k :| k in fields && !NumbersAsShown(shown, fields[k]);
        assert back[k] != fields[k];
      }
  }
}
