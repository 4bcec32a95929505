/** Credential entries of campnet_login.py and the normalisation done by
    `_read_credentials_file` once the file has been parsed as JSON: the
    top-level value is either a list of entries or an object whose
    "credentials" member is that list, and each entry is an object naming the
    user by "username" or "uname" and the password by "password" or "pwd". */
module Credentials {
  import opened Wrappers

  /** An immutable username/password pair. */
  datatype Credential = Credential(username: string, password: string)

  /** A parsed JSON value. Numbers are kept as reals (integers and floats
      alike); object keys are unique, as in the dict `json.load` builds. */
  datatype Json =
    | JNull
    | JBool(b: bool)
    | JNum(n: real)
    | JStr(s: string)
    | JArr(items: seq<Json>)
    | JObj(fields: map<string, Json>)

  /** Python truthiness of the value `json.load` produces. */
  predicate Truthy(v: Json) {
    match v
    case JNull => false
    case JBool(b) => b
    case JNum(n) => n != 0.0
    case JStr(s) => |s| > 0
    case JArr(items) => |items| > 0
    case JObj(fields) => |fields| > 0
  }

  /** `d.get(key)`: the member, or `None` when it is absent. */
  function Get(fields: map<string, Json>, key: string): Json {
    if key in fields then fields[key] else JNull
  }

  /** Python's `a or b`: `a` when it is truthy, otherwise `b`. */
  function Or(a: Json, b: Json): (r: Json)
    ensures Truthy(a) ==> r == a
    ensures !Truthy(a) ==> r == b
    ensures Truthy(r) <==> Truthy(a) || Truthy(b)
  {
    if Truthy(a) then a else b
  }

  /** Why an input was refused; entry numbers count from 1, as in the
      messages of the source. */
  datatype CredError =
    | NotAList
    | NotAMapping(entry: nat)
    | MissingField(entry: nat)

  /** The value of one field: the preferred key when truthy, otherwise the
      alternative key. */
  function Field(fields: map<string, Json>, key: string, alias: string): Json {
    Or(Get(fields, key), Get(fields, alias))
  }

  function UserField(e: Json): Json
    requires e.JObj?
  {
    Field(e.fields, "username", "uname")
  }

  function PasswordField(e: Json): Json
    requires e.JObj?
  {
    Field(e.fields, "password", "pwd")
  }

  /** An entry `_read_credentials_file` accepts. */
  predicate ValidEntry(e: Json) {
    e.JObj? && Truthy(UserField(e)) && Truthy(PasswordField(e))
  }

  /** `str(value)`: strings are kept as they are; the rendering of other JSON
      values is Python's `str`, supplied by the caller. */
  function AsString(v: Json, render: Json -> string): string {
    if v.JStr? then v.s else render(v)
  }

  /** The credential an accepted entry stands for. */
  function EntryCredential(e: Json, render: Json -> string): Credential
    requires ValidEntry(e)
  {
    Credential(AsString(UserField(e), render), AsString(PasswordField(e), render))
  }

  /** The list of entries: the "credentials" member of a top-level object,
      otherwise the value itself. */
  function Entries(raw: Json): Json {
    if raw.JObj? then Get(raw.fields, "credentials") else raw
  }

  /** `items[k]` is the first entry from `from` on that is refused. */
  predicate FirstBadEntry(items: seq<Json>, from: nat, k: int) {
    from <= k < |items| && !ValidEntry(items[k]) && forall j :: from <= j < k ==> ValidEntry(items[j])
  }

  /** Normalises `items[from..]`; entry numbers in errors are 1-based
      positions in `items`. */
  function NormaliseFrom(items: seq<Json>, from: nat, render: Json -> string): (r: Result<seq<Credential>, CredError>)
    requires from <= |items|
    ensures r.Success? <==> forall k :: from <= k < |items| ==> ValidEntry(items[k])
    ensures r.Success? ==>
              && |r.value| == |items| - from
              && forall k :: from <= k < |items| ==> r.value[k - from] == EntryCredential(items[k], render)
    ensures r.Failure? ==>
              exists k :: FirstBadEntry(items, from, k) &&
                r.error == (if items[k].JObj? then MissingField(k + 1) else NotAMapping(k + 1))
    decreases |items| - from
  {
    if from == |items| then Success([])
    else
      var e := items[from];
      if !e.JObj? then
        assert FirstBadEntry(items, from, from);
        Failure(NotAMapping(from + 1))
      else if !Truthy(UserField(e)) || !Truthy(PasswordField(e)) then
        assert FirstBadEntry(items, from, from);
        Failure(MissingField(from + 1))
      else match NormaliseFrom(items, from + 1, render)
        case Success(rest) =>
          var r := [EntryCredential(e, render)] + rest;
          assert forall k :: 0 <= k < |rest| ==> r[k + 1] == rest[k];
          Success(r)
        case Failure(err) =>
          assert forall k :: FirstBadEntry(items, from + 1, k) ==> FirstBadEntry(items, from, k);
          Failure(err)
  }

  /** `_read_credentials_file` after `json.load`. */
  function ReadCredentials(raw: Json, render: Json -> string): (r: Result<seq<Credential>, CredError>)
    ensures !Entries(raw).JArr? ==> r == Failure(NotAList)
    ensures r.Success? <==> Entries(raw).JArr? && forall k :: 0 <= k < |Entries(raw).items| ==> ValidEntry(Entries(raw).items[k])
    ensures r.Success? ==>
              && |r.value| == |Entries(raw).items|
              && forall k :: 0 <= k < |r.value| ==> r.value[k] == EntryCredential(Entries(raw).items[k], render)
  {
    var entries := Entries(raw);
    if !entries.JArr? then Failure(NotAList)
    else NormaliseFrom(entries.items, 0, render)
  }

  /** "username" wins over "uname", and "password" over "pwd", whenever it is
      truthy; the alias is used only in its absence or when it is falsy. */
  lemma PreferredKeys(e: Json, render: Json -> string)
    requires ValidEntry(e)
    ensures Truthy(Get(e.fields, "username")) ==> EntryCredential(e, render).username == AsString(e.fields["username"], render)
    ensures !Truthy(Get(e.fields, "username")) ==> EntryCredential(e, render).username == AsString(e.fields["uname"], render)
    ensures Truthy(Get(e.fields, "password")) ==> EntryCredential(e, render).password == AsString(e.fields["password"], render)
    ensures !Truthy(Get(e.fields, "password")) ==> EntryCredential(e, render).password == AsString(e.fields["pwd"], render)
  {
  }

  /** A credential taken from a string field is that string, so the fields of
      an accepted credential are never empty when the entry holds strings. */
  lemma StringFieldsKept(e: Json, render: Json -> string)
    requires ValidEntry(e) && UserField(e).JStr? && PasswordField(e).JStr?
    ensures |EntryCredential(e, render).username| > 0 && |EntryCredential(e, render).password| > 0
  {
  }

  /** The first refused entry decides the error: entries after it are never
      examined. */
  lemma {:induction false} FirstBadEntryReported(items: seq<Json>, k: nat, render: Json -> string)
    requires k < |items| && !ValidEntry(items[k])
    requires forall j :: 0 <= j < k ==> ValidEntry(items[j])
    ensures ReadCredentials(JArr(items), render) ==
              Failure(if items[k].JObj? then MissingField(k + 1) else NotAMapping(k + 1))
  {
    var r := NormaliseFrom(items, 0, render);
    var m :| FirstBadEntry(items, 0, m) &&
             r.error == (if items[m].JObj? then MissingField(m + 1) else NotAMapping(m + 1));
    FirstBadEntryUnique(items, 0, m, k);
  }

  lemma FirstBadEntryUnique(items: seq<Json>, from: nat, m: int, k: int)
    requires FirstBadEntry(items, from, m) && from <= k < |items| && !ValidEntry(items[k])
    requires forall j :: from <= j < k ==> ValidEntry(items[j])
    ensures m == k
  {
  }

  /* ---------------- scenarios ---------------- */

  /** The wrapped form with the alternative key names. */
  lemma ScenarioWrappedAliases(render: Json -> string)
    ensures ReadCredentials(JObj(map["credentials" := JArr([JObj(map["uname" := JStr("f2020"), "pwd" := JStr("pw")])])]), render)
            == Success([Credential("f2020", "pw")])
  {
    var e := JObj(map["uname" := JStr("f2020"), "pwd" := JStr("pw")]);
    var raw := JObj(map["credentials" := JArr([e])]);
    assert Entries(raw) == JArr([e]);
    assert "username" !in e.fields && "password" !in e.fields;
    assert UserField(e) == JStr("f2020") && PasswordField(e) == JStr("pw");
    assert EntryCredential(e, render) == Credential("f2020", "pw");
    var r := ReadCredentials(raw, render);
    assert r.Success? && |r.value| == 1 && r.value[0] == Credential("f2020", "pw");
    assert r.value == [Credential("f2020", "pw")];
  }

  /** A top-level object without a "credentials" list is refused. */
  lemma ScenarioBareObject()
    ensures forall render: Json -> string ::
              ReadCredentials(JObj(map["username" := JStr("u"), "password" := JStr("p")]), render) == Failure(NotAList)
  {
  }
}
