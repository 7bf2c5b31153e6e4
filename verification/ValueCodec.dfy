/** Secret values through the HTTP client: how `SetSecret` puts a value into the payload, how the two read
    paths get it back, and what one write and one read make of a value (vault/client.go, vault/parser.go). */
module ValueCodec {
  import opened Prelude
  import opened Json
  import opened JsonPath
  import opened JsonText
  import opened Jobs
  import Resolver

  // ---------------------------------------------------------------- writing

  /** `unicode.IsSpace`. */
  predicate Space(c: char) {
    || '\t' <= c <= '\r' || c == ' ' || c == '\U{85}' || c == '\U{a0}' || c == '\U{1680}'
    || '\U{2000}' <= c <= '\U{200a}' || c == '\U{2028}' || c == '\U{2029}' || c == '\U{202f}'
    || c == '\U{205f}' || c == '\U{3000}'
  }

  function TrimLeft(s: string): string {
    if s != "" && Space(s[0]) then TrimLeft(s[1..]) else s
  }

  function TrimRight(s: string): string {
    if s != "" && Space(s[|s| - 1]) then TrimRight(s[..|s| - 1]) else s
  }

  function TrimSpace(s: string): string { TrimRight(TrimLeft(s)) }

  predicate LooksLikeJson(v: string) {
    var t := TrimSpace(v);
    t != "" && (t[0] == '{' || t[0] == '[')
  }

  /** The value as it goes into the payload: a tree when it is JSON that starts with a bracket. */
  function ToTree(num: NumberReader, v: string): Json {
    if LooksLikeJson(v) then
      (match Unmarshal(num, v)
       case Some(t) => t
       case None => Str(v))
    else Str(v)
  }

  function Assign(ms: seq<Member>, key: string, v: Json): seq<Member> {
    if ms == [] then [Member(key, v)]
    else if key == ms[0].key then [Member(key, v)] + ms[1..]
    else if Less(key, ms[0].key) then [Member(key, v)] + ms
    else [ms[0]] + Assign(ms[1..], key, v)
  }

  function Lower(s: string): string {
    if s == "" then ""
    else [if 'A' <= s[0] <= 'Z' then s[0] - 'A' + 'a' else s[0]] + Lower(s[1..])
  }

  /** The number token 1 prints as itself. */
  ghost predicate ReadsOne(num: NumberReader) { num("1") == Some("1") }

  /** The payload map of `SetSecret`, field by field. */
  method Payload(num: NumberReader, nameField: string, valueField: string, name: string, v: string)
    returns (payload: seq<Member>)
    ensures Lawful(num) && ReadsOne(num) ==> Canonical(num, Obj(payload))
    ensures Field(payload, valueField) == Some(ToTree(num, v))
    ensures forall k :: Field(payload, k) ==
              if k == "type" && Lower(valueField) == "login" then Some(Num("1"))
              else if k == valueField then Some(ToTree(num, v))
              else if k == nameField then Some(Str(name))
              else None
  {
    payload := Assign([], nameField, Str(name));
    AssignKeeps(num, [], nameField, Str(name));
    ghost var first := payload;
    payload := Assign(payload, valueField, ToTree(num, v));
    if Lawful(num) {
      TreeIsCanonical(num, v);
    }
    AssignKeeps(num, first, valueField, ToTree(num, v));
    ghost var second := payload;
    forall k
      ensures Field(second, k) == if k == valueField then Some(ToTree(num, v))
                                  else if k == nameField then Some(Str(name)) else None
    {
      AssignSets([], nameField, Str(name), k);
      AssignSets(first, valueField, ToTree(num, v), k);
    }
    if Lower(valueField) == "login" {
      AssignKeeps(num, payload, "type", Num("1"));
      LowerType();
      forall k
        ensures Field(Assign(second, "type", Num("1")), k) == if k == "type" then Some(Num("1")) else Field(second, k)
      {
        AssignSets(second, "type", Num("1"), k);
      }
      payload := Assign(payload, "type", Num("1"));
    }
  }

  lemma LowerType()
    ensures Lower("type") != "login"
  {
    assert |"type"| != |"login"|;
    LowerLength("type");
  }

  lemma {:induction false} LowerLength(s: string)
    ensures |Lower(s)| == |s|
  {
    if s != "" {
      LowerLength(s[1..]);
    }
  }

  lemma {:induction false} AssignSets(ms: seq<Member>, key: string, v: Json, k: string)
    requires SortedKeys(ms)
    ensures Field(Assign(ms, key, v), k) == if k == key then Some(v) else Field(ms, k)
  {
    if ms != [] {
      AssignSets(ms[1..], key, v, k);
    }
  }

  lemma {:induction false} AssignKeeps(num: NumberReader, ms: seq<Member>, key: string, v: Json)
    requires SortedKeys(ms)
    ensures SortedKeys(Assign(ms, key, v))
    ensures forall x | x in Assign(ms, key, v) :: x == Member(key, v) || x in ms
    ensures Canonical(num, Obj(ms)) && Canonical(num, v) ==> Canonical(num, Obj(Assign(ms, key, v)))
  {
    if ms != [] {
      LessTotal(key, ms[0].key);
      if Less(key, ms[0].key) {
        forall j | 0 < j < |ms| ensures Less(key, ms[j].key) {
          LessTransitive(key, ms[0].key, ms[j].key);
        }
      } else if key != ms[0].key {
        AssignKeeps(num, ms[1..], key, v);
        var r := Assign(ms[1..], key, v);
        forall j | 0 <= j < |r| ensures Less(ms[0].key, r[j].key) {
          assert r[j] in r;
          if r[j] != Member(key, v) {
            var k :| 0 <= k < |ms[1..]| && ms[1..][k] == r[j];
            assert ms[k + 1] == r[j];
          }
        }
      }
    }
    var a := Assign(ms, key, v);
    if Canonical(num, Obj(ms)) && Canonical(num, v) {
      forall i | 0 <= i < |a| ensures Canonical(num, a[i].value) {
        assert a[i] in a;
      }
    }
  }

  // ---------------------------------------------------------------- reading

  /** Go's `%v` of what is neither a string nor a tree; `verb` prints the float of a number token. */
  function Verb(verb: string -> string, t: Json): string {
    match t
    case Null => "<nil>"
    case Bool(b) => if b then "true" else "false"
    case Num(token) => verb(token)
    case Str(s) => s
    case _ => Print(t)
  }

  /** `valueToString`, the read path of `ParseGetValue`. */
  function ValueToString(verb: string -> string, t: Json): string {
    match t
    case Str(s) => s
    case Obj(_) => Print(t)
    case Arr(_) => Print(t)
    case _ => Verb(verb, t)
  }

  /** The read path of `getSecretFromList`, which sends strings through `%v`. */
  function ListValueToString(verb: string -> string, t: Json): string {
    if t.Obj? || t.Arr? then Print(t) else Verb(verb, t)
  }

  datatype GetError = BadBody | NotFound

  datatype Parser = Parser(valuePath: string, valueField: string)

  function FirstField(ms: seq<Member>, names: seq<string>): Option<Json> {
    if names == [] then None
    else if Field(ms, names[0]).Some? then Field(ms, names[0])
    else FirstField(ms, names[1..])
  }

  lemma {:induction false} FirstFieldSays(ms: seq<Member>, names: seq<string>)
    ensures var r := FirstField(ms, names);
            && (r.Some? ==> exists i | 0 <= i < |names| ::
                  Field(ms, names[i]) == r && forall k | 0 <= k < i :: Field(ms, names[k]).None?)
            && (r.None? ==> forall i | 0 <= i < |names| :: Field(ms, names[i]).None?)
  {
    if names != [] && Field(ms, names[0]).None? {
      var rest := names[1..];
      FirstFieldSays(ms, rest);
      assert forall k | 0 <= k < |rest| :: names[k + 1] == rest[k];
      if FirstField(ms, rest).Some? {
        var i :| 0 <= i < |rest| && Field(ms, rest[i]) == FirstField(ms, rest)
                 && forall k | 0 <= k < i :: Field(ms, rest[k]).None?;
        forall k | 0 <= k < i + 1 ensures Field(ms, names[k]).None? {
          assert k > 0 ==> names[k] == rest[k - 1];
        }
      }
    }
  }

  /** `JsonPathParser.ParseGetValue`. */
  method ParseGetValue(num: NumberReader, verb: string -> string, p: Parser, body: string)
    returns (r: Result<string, GetError>)
    ensures AsMap(Unmarshal(num, body)).None? ==> r == Err(BadBody)
    ensures AsMap(Unmarshal(num, body)).Some? ==>
              var ms := AsMap(Unmarshal(num, body)).value;
              var names := (if p.valueField != "" then [p.valueField] else []) + ["value", "data", "secret"];
              var found := if p.valuePath != "" && Walk(Obj(ms), Split(p.valuePath)).Some?
                           then Walk(Obj(ms), Split(p.valuePath))
                           else FirstField(ms, names);
              && r == (match found { case Some(t) => Ok(ValueToString(verb, t)) case None => Err(NotFound) })
              && (found.Some? ==>
                    match found.value
                    case Null => r == Ok("<nil>")
                    case Bool(b) => r == Ok(if b then "true" else "false")
                    case Num(token) => r == Ok(verb(token))
                    case Str(s) => r == Ok(s)
                    case _ => r == Ok(Print(found.value)))
  {
    var data := AsMap(Unmarshal(num, body));
    if data.None? {
      return Err(BadBody);
    }
    if p.valuePath != "" {
      var val := GetValueAtPath(Obj(data.value), p.valuePath);
      if val.Some? {
        return Ok(ValueToString(verb, val.value));
      }
    }
    ghost var all := (if p.valueField != "" then [p.valueField] else []) + ["value", "data", "secret"];
    var names := ["value", "data", "secret"];
    if p.valueField != "" {
      assert all[1..] == names;
      var val := Field(data.value, p.valueField);
      if val.Some? {
        return Ok(ValueToString(verb, val.value));
      }
    } else {
      assert all == names;
    }
    var i := 0;
    while i < |names|
      invariant 0 <= i <= |names|
      invariant FirstField(data.value, names[i..]) == FirstField(data.value, all)
    {
      assert names[i..][1..] == names[i + 1..];
      var val := Field(data.value, names[i]);
      if val.Some? {
        return Ok(ValueToString(verb, val.value));
      }
      i := i + 1;
    }
    r := Err(NotFound);
  }

  /** `parseJSONValue` of the tool backend: any root, no fallback, and on a found path the same text as
      `ParseGetValue`. */
  method ParseJSONValue(num: NumberReader, verb: string -> string, data: string, path: string)
    returns (r: Result<string, GetError>)
    ensures r == match Unmarshal(num, data)
                 case None => Err(BadBody)
                 case Some(root) =>
                   match Walk(root, Split(path)) {
                     case None => Err(NotFound)
                     case Some(t) => Ok(ValueToString(verb, t))
                   }
  {
    var root := Unmarshal(num, data);
    if root.None? {
      return Err(BadBody);
    }
    var node := JsonNavigate(root.value, path);
    if node.None? {
      return Err(NotFound);
    }
    match node.value {
      case Str(s) => r := Ok(s);
      case Obj(_) => r := Ok(Print(node.value));
      case Arr(_) => r := Ok(Print(node.value));
      case _ => r := Ok(Verb(verb, node.value));
    }
  }

  predicate Bears(item: Json, nameField: string, name: string) {
    item.Obj? && Field(item.members, nameField) == Some(Str(name))
  }

  /** The first item that is an object of this name. */
  function FirstNamed(items: seq<Json>, nameField: string, name: string): Option<seq<Member>> {
    if items == [] then None
    else if Bears(items[0], nameField, name) then Some(items[0].members)
    else FirstNamed(items[1..], nameField, name)
  }

  lemma {:induction false} FirstNamedSays(items: seq<Json>, nameField: string, name: string)
    ensures var r := FirstNamed(items, nameField, name);
            && (r.Some? ==> exists i | 0 <= i < |items| ::
                  && items[i] == Obj(r.value) && Bears(items[i], nameField, name)
                  && forall k | 0 <= k < i :: !Bears(items[k], nameField, name))
            && (r.None? ==> forall i | 0 <= i < |items| :: !Bears(items[i], nameField, name))
  {
    if items != [] && !Bears(items[0], nameField, name) {
      var rest := items[1..];
      FirstNamedSays(rest, nameField, name);
      assert forall k | 0 <= k < |rest| :: items[k + 1] == rest[k];
      if FirstNamed(rest, nameField, name).Some? {
        var i :| 0 <= i < |rest| && rest[i] == Obj(FirstNamed(rest, nameField, name).value)
                 && forall k | 0 <= k < i :: !Bears(rest[k], nameField, name);
        forall k | 0 <= k < i + 1 ensures !Bears(items[k], nameField, name) {
          assert k > 0 ==> items[k] == rest[k - 1];
        }
      }
    }
  }

  /** `getSecretFromList` once the name was found in the listing; a missing value reads as null. */
  method GetSecretFromList(num: NumberReader, verb: string -> string, body: string, nameField: string,
                           valueField: string, name: string)
    returns (r: Result<string, GetError>)
    ensures AsMap(Unmarshal(num, body)).None? ==> r == Err(BadBody)
    ensures AsMap(Unmarshal(num, body)).Some? ==>
              var items := ArrayField(AsMap(Unmarshal(num, body)).value, "data");
              var item := if items.Some? then FirstNamed(items.value, OrName(nameField), name) else None;
              var value := if valueField == "" then "value" else valueField;
              r == match item {
                     case None => Err(NotFound)
                     case Some(ms) =>
                       Ok(ValueToString(verb, if Field(ms, value).Some? then Field(ms, value).value else Null))
                   }
  {
    var data := AsMap(Unmarshal(num, body));
    if data.None? {
      return Err(BadBody);
    }
    var nameKey := if nameField == "" then "name" else nameField;
    var valueKey := if valueField == "" then "value" else valueField;
    var items := ArrayField(data.value, "data");
    if items.Some? {
      var i := 0;
      while i < |items.value|
        invariant 0 <= i <= |items.value|
        invariant FirstNamed(items.value[i..], nameKey, name) == FirstNamed(items.value, nameKey, name)
      {
        assert items.value[i..][1..] == items.value[i + 1..];
        var item := items.value[i];
        if Bears(item, nameKey, name) {
          var value := Field(item.members, valueKey);
          return Ok(ListValueToString(verb, if value.Some? then value.value else Null));
        }
        i := i + 1;
      }
    }
    r := Err(NotFound);
  }

  // ---------------------------------------------------------------- one write and one read

  /** What a value reads as after it was written. */
  function Canon(num: NumberReader, v: string): string {
    ValueToString(token => token, ToTree(num, v))
  }

  predicate Structured(t: Option<Json>) { t.Some? && (t.value.Obj? || t.value.Arr?) }

  /** The space that is trimmed includes the white space of JSON, so the look at the first character finds
      the bracket of the JSON value. */
  lemma {:induction false} FirstCharacter(v: string)
    requires SkipWhite(v) != "" && !Space(SkipWhite(v)[0])
    ensures TrimLeft(v) == SkipWhite(v)
  {
    if White(v[0]) {
      FirstCharacter(v[1..]);
    }
  }

  lemma {:induction false} TrimRightKeepsFirst(s: string)
    requires s != "" && !Space(s[0])
    ensures TrimRight(s) != "" && TrimRight(s)[0] == s[0]
  {
    if Space(s[|s| - 1]) {
      TrimRightKeepsFirst(s[..|s| - 1]);
    }
  }

  lemma ValueStart(num: NumberReader, s: string)
    requires ReadHere(num, s).Some?
    ensures s != "" && !Space(s[0])
    ensures (s[0] == '{' || s[0] == '[') <==> Structured(Some(ReadHere(num, s).value.0))
  {
    if s[0] != '\"' && s[0] != '[' && s[0] != '{' && s[0] != '-' && !('0' <= s[0] <= '9') {
      assert "null" <= s || "true" <= s || "false" <= s;
      assert s[0] == 'n' || s[0] == 't' || s[0] == 'f';
    }
  }

  /** The client sends a tree exactly for the values that are JSON objects or arrays. */
  lemma TreeIffStructured(num: NumberReader, v: string)
    ensures ToTree(num, v) == if Structured(Unmarshal(num, v)) then Unmarshal(num, v).value else Str(v)
  {
    if Unmarshal(num, v).Some? {
      var s := SkipWhite(v);
      ValueStart(num, s);
      FirstCharacter(v);
      TrimRightKeepsFirst(s);
    }
  }

  lemma TreeIsCanonical(num: NumberReader, v: string)
    requires Lawful(num)
    ensures Canonical(num, ToTree(num, v))
  {
    UnmarshalIsCanonical(num, v);
  }

  /** `Canon` prints JSON objects and arrays canonically and is the identity on every other value. */
  lemma CanonMeaning(num: NumberReader, v: string)
    ensures Canon(num, v) == if Structured(Unmarshal(num, v)) then Print(Unmarshal(num, v).value) else v
  {
    TreeIffStructured(num, v);
  }

  /** Writing and reading once more changes nothing, for every value; and what was JSON stays the same
      JSON. */
  lemma CanonIdempotent(num: NumberReader, v: string)
    requires Lawful(num)
    ensures Canon(num, Canon(num, v)) == Canon(num, v)
    ensures Structured(Unmarshal(num, v)) ==> Unmarshal(num, Canon(num, v)) == Unmarshal(num, v)
  {
    CanonMeaning(num, v);
    CanonMeaning(num, Canon(num, v));
    if Structured(Unmarshal(num, v)) {
      UnmarshalIsCanonical(num, v);
      UnmarshalUndoesPrint(num, Unmarshal(num, v).value);
    }
  }

  /** Both read paths make the same of every tree, and `Canon` of what was sent, whatever `verb` is. */
  lemma ReadPathsAgree(num: NumberReader, verb: string -> string, t: Json, v: string)
    ensures ValueToString(verb, t) == ListValueToString(verb, t)
    ensures ValueToString(verb, ToTree(num, v)) == Canon(num, v)
  {
    TreeIffStructured(num, v);
  }

  /** What a vault finds in the value field of the text it is sent. */
  method Sent(num: NumberReader, nameField: string, valueField: string, name: string, v: string)
    returns (text: string, kept: Option<Json>)
    requires Lawful(num) && ReadsOne(num)
    ensures Unmarshal(num, text).Some? && Unmarshal(num, text).value.Obj?
    ensures kept == Field(Unmarshal(num, text).value.members, valueField) == Some(ToTree(num, v))
  {
    var payload := Payload(num, nameField, valueField, name, v);
    text := Print(Obj(payload));
    UnmarshalUndoesPrint(num, Obj(payload));
    kept := Field(Unmarshal(num, text).value.members, valueField);
  }

  /** Over the wire: when the vault keeps the value field of the payload it was sent and answers with any
      text of a JSON object that has it at the value path, what is read is `Canon` of what was written. */
  method WriteThenRead(num: NumberReader, verb: string -> string, nameField: string, valueField: string,
                       name: string, v: string, p: Parser, ghost answer: Json, body: string)
    returns (kept: Option<Json>, r: Result<string, GetError>)
    requires Lawful(num) && ReadsOne(num)
    requires p.valuePath != "" && answer.Obj? && Denotes(num, body, answer)
    ensures kept == Some(ToTree(num, v))
    ensures Walk(answer, Split(p.valuePath)) == kept ==> r == Ok(Canon(num, v))
  {
    var text;
    text, kept := Sent(num, nameField, valueField, name, v);
    ReadPathsAgree(num, verb, answer, v);
    UnmarshalIffDenotes(num, body, answer);
    r := ParseGetValue(num, verb, p, body);
  }

  /** The same for a vault that is read by listing: it answers with any text of a JSON object whose `data`
      has, as the first item of that name, one with the value that was sent. */
  method WriteThenList(num: NumberReader, verb: string -> string, nameField: string, valueField: string,
                       name: string, v: string, ghost item: seq<Member>, ghost answer: Json, body: string)
    returns (kept: Option<Json>, r: Result<string, GetError>)
    requires Lawful(num) && ReadsOne(num)
    requires answer.Obj? && Denotes(num, body, answer) && ArrayField(answer.members, "data").Some?
    requires FirstNamed(ArrayField(answer.members, "data").value, OrName(nameField), name) == Some(item)
    ensures kept == Some(ToTree(num, v))
    ensures Field(item, if valueField == "" then "value" else valueField) == kept ==> r == Ok(Canon(num, v))
  {
    var text;
    text, kept := Sent(num, nameField, valueField, name, v);
    ReadPathsAgree(num, verb, answer, v);
    UnmarshalIffDenotes(num, body, answer);
    r := GetSecretFromList(num, verb, body, nameField, valueField, name);
  }

  // ---------------------------------------------------------------- bidirectional sync of such vaults

  /** A vault behind the HTTP client canonicalises, another may keep values as given: in every
      combination bidirectional sync settles after two runs. */
  lemma JsonVaultsStabilise(num: NumberReader, run: Run<string>, job: Job, c: Cell<string>, n: nat)
    requires Lawful(num)
    requires run.kind == Bidirectional && c.src.Some? && n >= 2 && run.Retries() >= 0
    requires Resolver.Injective(run.hash) && Resolver.NoTransforms(run) && Resolver.FailureFree(run, job)
    requires Resolver.CanonicalVault(run, run.source, v => Canon(num, v))
    requires Resolver.CanonicalVault(run, job.target, v => Canon(num, v))
    ensures Resolver.InSyncCell(Resolver.Runs(run, job, n, c))
    ensures Resolver.Writes(run, job, Start(run, true), Resolver.Runs(run, job, n, c)) == 0
  {
    var canon := (v: string) => Canon(num, v);
    forall v ensures canon(canon(v)) == canon(v) {
      CanonIdempotent(num, v);
    }
    assert Resolver.CanonicalVault(run, run.source, canon) && Resolver.CanonicalVault(run, job.target, canon);
    Resolver.SelfStabilises(run, job, c, canon, n);
  }
}
