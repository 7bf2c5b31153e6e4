/** The two independent walkers of dotted paths, of the HTTP client (vault/parser.go) and of the tool
    backend (vault/tool_backend.go), and the list parsers above them. */
module JsonPath {
  import opened Prelude
  import opened Json

  /** `strings.Split(path, ".")`. */
  function Split(path: string): (parts: seq<string>)
    ensures parts != []
  {
    if path == "" then [""]
    else
      var rest := Split(path[1..]);
      if path[0] == '.' then [""] + rest
      else [[path[0]] + rest[0]] + rest[1..]
  }

  function Field(members: seq<Member>, key: string): Option<Json> {
    if members == [] then None
    else if members[0].key == key then Some(members[0].value)
    else Field(members[1..], key)
  }

  /** The value of a member of that name, or none when no member has it. */
  lemma {:induction false} FieldSays(members: seq<Member>, key: string)
    ensures var r := Field(members, key);
            && (r.Some? ==> Member(key, r.value) in members)
            && (r.None? ==> forall m | m in members :: m.key != key)
  {
    if members != [] {
      FieldSays(members[1..], key);
      assert members == [members[0]] + members[1..];
    }
  }

  /** One step of a path: empty segments stay where they are, only objects can be entered. */
  function Enter(t: Json, part: string): Option<Json> {
    if part == "" then Some(t)
    else if t.Obj? then Field(t.members, part)
    else None
  }

  function Walk(t: Json, parts: seq<string>): Option<Json>
    decreases |parts|
  {
    if parts == [] then Some(t)
    else match Enter(t, parts[0])
      case None => None
      case Some(u) => Walk(u, parts[1..])
  }

  /** `JsonPathParser.getValueAtPath`. */
  method GetValueAtPath(data: Json, path: string) returns (r: Option<Json>)
    ensures r == Walk(data, Split(path))
  {
    var parts := Split(path);
    var current := data;
    for i := 0 to |parts|
      invariant Walk(current, parts[i..]) == Walk(data, parts)
    {
      assert parts[i..][1..] == parts[i + 1..];
      if parts[i] == "" {
        continue;
      }
      if !current.Obj? {
        return None;
      }
      var val := Field(current.members, parts[i]);
      if val.None? {
        return None;
      }
      current := val.value;
    }
    r := Some(current);
  }

  /** `jsonNavigate`. */
  method JsonNavigate(root: Json, path: string) returns (r: Option<Json>)
    ensures r == Walk(root, Split(path))
  {
    if path == "" {
      assert Walk(root, Split(path)) == Walk(root, Split(path)[1..]);
      return Some(root);
    }
    var current := root;
    var todo := Split(path);
    while todo != []
      invariant Walk(current, todo) == Walk(root, Split(path))
      decreases |todo|
    {
      var part := todo[0];
      todo := todo[1..];
      if part != "" {
        if !current.Obj? || Field(current.members, part).None? {
          return None;
        }
        current := Field(current.members, part).value;
      }
    }
    r := Some(current);
  }

  lemma {:induction false} SplitJoin(p: string, q: string)
    ensures Split(p + "." + q) == Split(p) + Split(q)
  {
    var s := p + "." + q;
    if p == "" {
      assert s[1..] == q;
    } else {
      assert s[1..] == p[1..] + "." + q;
      SplitJoin(p[1..], q);
    }
  }

  lemma {:induction false} WalkAppend(t: Json, a: seq<string>, b: seq<string>)
    ensures Walk(t, a + b) == match Walk(t, a) { case None => None case Some(u) => Walk(u, b) }
    decreases |a|
  {
    if a == [] {
      assert a + b == b;
    } else {
      assert (a + b)[1..] == a[1..] + b;
      match Enter(t, a[0])
      case None =>
      case Some(u) => WalkAppend(u, a[1..], b);
    }
  }

  /** Walking `p.q` is walking p and from there q; it fails exactly when one of the two does. */
  lemma WalkJoins(t: Json, p: string, q: string)
    ensures Walk(t, Split(p + "." + q)) ==
            match Walk(t, Split(p)) { case None => None case Some(u) => Walk(u, Split(q)) }
  {
    SplitJoin(p, q);
    WalkAppend(t, Split(p), Split(q));
  }

  /** A path without a dot is the name of a member; the empty path stays where it is. */
  lemma OneSegment(t: Json, name: string)
    requires '.' !in name
    ensures Walk(t, Split(name)) ==
            if name == "" then Some(t) else if t.Obj? then Field(t.members, name) else None
  {
    WithoutDots(name);
    assert Walk(t, [name]) == match Enter(t, name) { case None => None case Some(u) => Walk(u, [name][1..]) };
  }

  lemma {:induction false} WithoutDots(name: string)
    requires '.' !in name
    ensures Split(name) == [name]
  {
    if name != "" {
      WithoutDots(name[1..]);
      assert name == [name[0]] + name[1..];
    }
  }

  function NonEmpty(parts: seq<string>): seq<string> {
    if parts == [] then [] else (if parts[0] == "" then [] else [parts[0]]) + NonEmpty(parts[1..])
  }

  /** Empty segments (doubled, leading or trailing dots) do not matter. */
  lemma {:induction false} EmptySegmentsIgnored(t: Json, parts: seq<string>)
    ensures Walk(t, parts) == Walk(t, NonEmpty(parts))
    decreases |parts|
  {
    if parts != [] {
      assert parts[0] != "" ==> NonEmpty(parts)[1..] == NonEmpty(parts[1..]);
      assert parts[0] == "" ==> NonEmpty(parts) == NonEmpty(parts[1..]);
      match Enter(t, parts[0])
      case None =>
      case Some(u) => EmptySegmentsIgnored(u, parts[1..]);
    }
  }

  /** A path with a segment fails on everything that is no object, and on an object without that name. */
  lemma SegmentNeedsObject(t: Json, part: string, more: seq<string>)
    requires part != "" && (t.Obj? ==> Field(t.members, part).None?)
    ensures Walk(t, [part] + more).None?
  {
    assert ([part] + more)[1..] == more;
  }

  lemma {:induction false} NonObjectFails(t: Json, parts: seq<string>)
    requires !t.Obj? && exists i | 0 <= i < |parts| :: parts[i] != ""
    ensures Walk(t, parts).None?
  {
    if parts[0] == "" {
      var i :| 0 <= i < |parts| && parts[i] != "";
      assert parts[1..][i - 1] != "";
      NonObjectFails(t, parts[1..]);
    }
  }

  // ---------------------------------------------------------------- lists of names

  function NameOf(item: Json, nameField: string): Option<string> {
    match item
    case Str(s) => Some(s)
    case Obj(members) =>
      (match Field(members, nameField)
       case Some(Str(s)) => Some(s)
       case _ => None)
    case _ => None
  }

  /** The names of the items that have one, in order. */
  function Names(items: seq<Json>, nameField: string): seq<string> {
    if items == [] then []
    else
      var k := |items| - 1;
      Names(items[..k], nameField)
      + (match NameOf(items[k], nameField) case Some(s) => [s] case None => [])
  }

  lemma NamesNext(items: seq<Json>, i: nat, nameField: string)
    requires i < |items|
    ensures Names(items[..i + 1], nameField) ==
            Names(items[..i], nameField) + (match NameOf(items[i], nameField) case Some(s) => [s] case None => [])
  {
    assert items[..i + 1][..i] == items[..i];
  }

  lemma NamesSnoc(items: seq<Json>, item: Json, nameField: string)
    ensures Names(items + [item], nameField) ==
            Names(items, nameField) + (match NameOf(item, nameField) case Some(s) => [s] case None => [])
  {
    assert (items + [item])[..|items|] == items;
  }

  lemma {:induction false} NamesAppend(a: seq<Json>, b: seq<Json>, nameField: string)
    ensures Names(a + b, nameField) == Names(a, nameField) + Names(b, nameField)
  {
    if b == [] {
      assert a + b == a;
    } else {
      var front, last := b[..|b| - 1], b[|b| - 1];
      NamesAppend(a, front, nameField);
      NamesSnoc(front, last, nameField);
      NamesSnoc(a + front, last, nameField);
      assert b == front + [last] && a + b == (a + front) + [last];
    }
  }

  function OrName(nameField: string): string { if nameField == "" then "name" else nameField }

  datatype ListError = Syntax | NoPath | NotAnArray

  /** A body unmarshalled into a Go map: an object, or null, which leaves the map empty. */
  function AsMap(t: Option<Json>): Option<seq<Member>> {
    match t
    case Some(Obj(members)) => Some(members)
    case Some(Null) => Some([])
    case _ => None
  }

  function ArrayField(members: seq<Member>, key: string): Option<seq<Json>> {
    match Field(members, key)
    case Some(Arr(items)) => Some(items)
    case _ => None
  }

  /** The items `ParseList` falls back on. */
  function Fallback(members: seq<Member>): seq<Json> {
    if ArrayField(members, "data").Some? then ArrayField(members, "data").value
    else if ArrayField(members, "value").Some? then ArrayField(members, "value").value
    else if ArrayField(members, "keys").Some? then ArrayField(members, "keys").value
    else []
  }

  function ItemsAt(members: seq<Member>, listPath: string): seq<Json> {
    if listPath == "" then []
    else match Walk(Obj(members), Split(listPath))
      case Some(Arr(items)) => items
      case _ => []
  }

  /** The fallback is the first array among the fields data, value and keys. */
  lemma FallbackSays(members: seq<Member>)
    ensures match Field(members, "data")
            case Some(Arr(items)) => Fallback(members) == items
            case _ =>
              match Field(members, "value") {
                case Some(Arr(items)) => Fallback(members) == items
                case _ =>
                  match Field(members, "keys")
                  case Some(Arr(items)) => Fallback(members) == items
                  case _ => Fallback(members) == []
              }
  {}

  /** A string is its own name, an object has the string in its name field, other items have none; without a
      configured field it is `name`. */
  lemma NamesSay(item: Json, nameField: string)
    ensures Names([item], OrName(nameField)) ==
            var field := if nameField == "" then "name" else nameField;
            match item
            case Str(s) => [s]
            case Obj(members) => (match Field(members, field) case Some(Str(s)) => [s] case _ => [])
            case _ => []
  {
    assert Names([item][..0], OrName(nameField)) == [];
  }

  /** `JsonPathParser.ParseList`. */
  method ParseList(num: NumberReader, body: string, listPath: string, nameField: string)
    returns (r: Result<seq<string>, ListError>)
    ensures r == ListOf(AsMap(Unmarshal(num, body)), listPath, nameField)
  {
    var data := AsMap(Unmarshal(num, body));
    if data.None? {
      return Err(Syntax);
    }
    var items := [];
    if listPath != "" {
      var val := GetValueAtPath(Obj(data.value), listPath);
      if val.Some? && val.value.Arr? {
        items := val.value.items;
      }
    }
    if |items| == 0 {
      items := Fallback(data.value);
    }
    var names := [];
    for i := 0 to |items|
      invariant names == Names(items[..i], OrName(nameField))
    {
      NamesNext(items, i, OrName(nameField));
      if items[i].Obj? {
        var field := if nameField == "" then "name" else nameField;
        var name := Field(items[i].members, field);
        if name.Some? && name.value.Str? {
          names := names + [name.value.s];
        }
      } else if items[i].Str? {
        names := names + [items[i].s];
      }
    }
    assert items[..|items|] == items;
    r := Ok(names);
  }

  function ListOf(data: Option<seq<Member>>, listPath: string, nameField: string): Result<seq<string>, ListError> {
    match data
    case None => Err(Syntax)
    case Some(members) =>
      var items := ItemsAt(members, listPath);
      Ok(Names(if items == [] then Fallback(members) else items, OrName(nameField)))
  }

  /** The names of the items at the path when there are some, else those of the fallback. */
  lemma ListSays(members: seq<Member>, listPath: string, nameField: string)
    ensures var there: Option<Json> := if listPath == "" then None else Walk(Obj(members), Split(listPath));
            ListOf(Some(members), listPath, nameField) ==
            match there
            case Some(Arr(items)) =>
              Ok(Names(if items != [] then items else Fallback(members), OrName(nameField)))
            case _ => Ok(Names(Fallback(members), OrName(nameField)))
  {}

  /** `parseJSONList`. */
  method ParseJSONList(num: NumberReader, data: string, path: string, nameField: string)
    returns (r: Result<seq<string>, ListError>)
    ensures r == ToolListOf(Unmarshal(num, data), path, nameField)
    ensures Unmarshal(num, data).None? ==> r == Err(Syntax)
    ensures Unmarshal(num, data).Some? ==>
              match Walk(Unmarshal(num, data).value, Split(path))
              case None => r == Err(NoPath)
              case Some(Arr(items)) => r == Ok(Names(items, OrName(nameField)))
              case Some(_) => r == Err(NotAnArray)
  {
    var root := Unmarshal(num, data);
    if root.None? {
      return Err(Syntax);
    }
    var node := JsonNavigate(root.value, path);
    if node.None? {
      return Err(NoPath);
    }
    if !node.value.Arr? {
      return Err(NotAnArray);
    }
    var items := node.value.items;
    var field := if nameField == "" then "name" else nameField;
    var names := [];
    for i := 0 to |items|
      invariant names == Names(items[..i], OrName(nameField))
    {
      NamesNext(items, i, OrName(nameField));
      match items[i] {
        case Str(s) => names := names + [s];
        case Obj(members) =>
          var name := Field(members, field);
          if name.Some? && name.value.Str? {
            names := names + [name.value.s];
          }
        case _ =>
      }
    }
    assert items[..|items|] == items;
    r := Ok(names);
  }

  function ToolListOf(root: Option<Json>, path: string, nameField: string): Result<seq<string>, ListError> {
    match root
    case None => Err(Syntax)
    case Some(t) =>
      match Walk(t, Split(path)) {
        case None => Err(NoPath)
        case Some(Arr(items)) => Ok(Names(items, OrName(nameField)))
        case Some(_) => Err(NotAnArray)
      }
  }

  /** Whenever the tool backend lists an object root at a non-empty path, the HTTP parser lists the same
      names there, except that it looks elsewhere when the array is empty: the two agree exactly when the
      array has items or the fallback yields no name either. */
  lemma ListParsersAgree(members: seq<Member>, path: string, nameField: string)
    requires path != "" && ToolListOf(Some(Obj(members)), path, nameField).Ok?
    ensures var items := Walk(Obj(members), Split(path)).value.items;
            ListOf(Some(members), path, nameField) == ToolListOf(Some(Obj(members)), path, nameField)
            <==> items != [] || Names(Fallback(members), OrName(nameField)) == []
  {}
}
