/** The request dispatcher: the registry of actions built from the
    decorated handler methods, the routing of a request by its "action"
    field, and the five handlers with their required-field checks. */
module Dispatcher {
  import opened Common
  import opened Timestamps
  import opened Cql
  import opened ScyllaDbClient

  /** A decoded request: string keys to string values. */
  type Request = map<string, string>

  /** `request.get(key)`. */
  function Get(request: Request, key: string): Option<string> {
    if key in request then Some(request[key]) else None
  }

  /** The handler methods of the class. */
  datatype Handler = CreateDocument | GetDocument | GetLastDocument | UpsertDailyReport | GetDailyReport

  // ---------------------------------------------------------------------
  // The registry.

  /** The attributes of the object, named after their Python names:
      `__init__`, `handle_request`, the `action` decorator, the five
      handlers, and the instance fields `db_client` and `action_handlers`. */
  datatype Member =
    | InitMember | HandleRequestMember | ActionMember
    | CreateDocumentMember | GetDocumentMember | GetLastDocumentMember | UpsertDailyReportMember | GetDailyReportMember
    | DbClientMember | ActionHandlersMember

  /** What an attribute holds: a method decorated with `@action(tag)`,
      defined at a line of the class body, or anything else. */
  datatype Attr = Tagged(tag: string, handler: Handler, line: nat) | Untagged

  datatype Definition = Definition(name: Member, attr: Attr)

  /** The class body in order of definition; `upsert_daily_report` is
      defined twice. */
  const ClassBody: seq<Definition> := [
    Definition(InitMember, Untagged),
    Definition(HandleRequestMember, Untagged),
    Definition(ActionMember, Untagged),
    Definition(CreateDocumentMember, Tagged("create_document", CreateDocument, 39)),
    Definition(GetDocumentMember, Tagged("get_document", GetDocument, 51)),
    Definition(GetLastDocumentMember, Tagged("get_last_document", GetLastDocument, 63)),
    Definition(UpsertDailyReportMember, Tagged("upsert_daily_report", UpsertDailyReport, 74)),
    Definition(UpsertDailyReportMember, Tagged("upsert_daily_report", UpsertDailyReport, 93)),
    Definition(GetDailyReportMember, Tagged("get_daily_report", GetDailyReport, 112))
  ]

  /** The instance attributes, set before the registry is built. */
  const InstanceFields: seq<Definition> := [Definition(DbClientMember, Untagged), Definition(ActionHandlersMember, Untagged)]

  /** The namespace a sequence of definitions produces: a later definition
      of a name replaces an earlier one. */
  function Namespace(defs: seq<Definition>): (ns: map<Member, Attr>)
    ensures forall i :: 0 <= i < |defs| ==> defs[i].name in ns
  {
    if defs == [] then map[]
    else
      var last := defs[|defs| - 1];
      Namespace(defs[..|defs| - 1])[last.name := last.attr]
  }

  lemma NamespaceUnfold(defs: seq<Definition>, k: nat)
    requires 0 < k <= |defs|
    ensures Namespace(defs[..k]) == Namespace(defs[..k - 1])[defs[k - 1].name := defs[k - 1].attr]
  {
    assert defs[..k][..k - 1] == defs[..k - 1];
  }

  /** The attributes of a Functions object. */
  const Attributes: map<Member, Attr> := map[
    InitMember := Untagged, HandleRequestMember := Untagged, ActionMember := Untagged,
    CreateDocumentMember := Tagged("create_document", CreateDocument, 39),
    GetDocumentMember := Tagged("get_document", GetDocument, 51),
    GetLastDocumentMember := Tagged("get_last_document", GetLastDocument, 63),
    UpsertDailyReportMember := Tagged("upsert_daily_report", UpsertDailyReport, 93),
    GetDailyReportMember := Tagged("get_daily_report", GetDailyReport, 112),
    DbClientMember := Untagged, ActionHandlersMember := Untagged
  ]

  lemma NamespacePrefix()
    ensures Namespace((ClassBody + InstanceFields)[..6]) == map[InitMember := Untagged, HandleRequestMember := Untagged, ActionMember := Untagged, CreateDocumentMember := Tagged("create_document", CreateDocument, 39), GetDocumentMember := Tagged("get_document", GetDocument, 51), GetLastDocumentMember := Tagged("get_last_document", GetLastDocument, 63)]
  {
    var d := ClassBody + InstanceFields;
    assert d[..0] == [];
    assert Namespace(d[..1]) == map[InitMember := Untagged] by {
      NamespaceUnfold(d, 1);
    }
    assert Namespace(d[..2]) == map[InitMember := Untagged, HandleRequestMember := Untagged] by {
      NamespaceUnfold(d, 2);
    }
    assert Namespace(d[..3]) == map[InitMember := Untagged, HandleRequestMember := Untagged, ActionMember := Untagged] by {
      NamespaceUnfold(d, 3);
    }
    assert Namespace(d[..4]) == map[InitMember := Untagged, HandleRequestMember := Untagged, ActionMember := Untagged, CreateDocumentMember := Tagged("create_document", CreateDocument, 39)] by {
      NamespaceUnfold(d, 4);
    }
    assert Namespace(d[..5]) == map[InitMember := Untagged, HandleRequestMember := Untagged, ActionMember := Untagged, CreateDocumentMember := Tagged("create_document", CreateDocument, 39), GetDocumentMember := Tagged("get_document", GetDocument, 51)] by {
      NamespaceUnfold(d, 5);
    }
    assert Namespace(d[..6]) == map[InitMember := Untagged, HandleRequestMember := Untagged, ActionMember := Untagged, CreateDocumentMember := Tagged("create_document", CreateDocument, 39), GetDocumentMember := Tagged("get_document", GetDocument, 51), GetLastDocumentMember := Tagged("get_last_document", GetLastDocument, 63)] by {
      NamespaceUnfold(d, 6);
    }
  }

  /** The object's namespace: the later definition of
      `upsert_daily_report` replaces the earlier one. */
  lemma AttributesOfObject()
    ensures Namespace(ClassBody + InstanceFields) == Attributes
  {
    var d := ClassBody + InstanceFields;
    NamespacePrefix();
    assert d[..11] == d;
    assert Namespace(d[..7]) == map[InitMember := Untagged, HandleRequestMember := Untagged, ActionMember := Untagged, CreateDocumentMember := Tagged("create_document", CreateDocument, 39), GetDocumentMember := Tagged("get_document", GetDocument, 51), GetLastDocumentMember := Tagged("get_last_document", GetLastDocument, 63), UpsertDailyReportMember := Tagged("upsert_daily_report", UpsertDailyReport, 74)] by {
      NamespaceUnfold(d, 7);
    }
    assert Namespace(d[..8]) == map[InitMember := Untagged, HandleRequestMember := Untagged, ActionMember := Untagged, CreateDocumentMember := Tagged("create_document", CreateDocument, 39), GetDocumentMember := Tagged("get_document", GetDocument, 51), GetLastDocumentMember := Tagged("get_last_document", GetLastDocument, 63), UpsertDailyReportMember := Tagged("upsert_daily_report", UpsertDailyReport, 93)] by {
      NamespaceUnfold(d, 8);
    }
    assert Namespace(d[..9]) == map[InitMember := Untagged, HandleRequestMember := Untagged, ActionMember := Untagged, CreateDocumentMember := Tagged("create_document", CreateDocument, 39), GetDocumentMember := Tagged("get_document", GetDocument, 51), GetLastDocumentMember := Tagged("get_last_document", GetLastDocument, 63), UpsertDailyReportMember := Tagged("upsert_daily_report", UpsertDailyReport, 93), GetDailyReportMember := Tagged("get_daily_report", GetDailyReport, 112)] by {
      NamespaceUnfold(d, 9);
    }
    assert Namespace(d[..10]) == map[InitMember := Untagged, HandleRequestMember := Untagged, ActionMember := Untagged, CreateDocumentMember := Tagged("create_document", CreateDocument, 39), GetDocumentMember := Tagged("get_document", GetDocument, 51), GetLastDocumentMember := Tagged("get_last_document", GetLastDocument, 63), UpsertDailyReportMember := Tagged("upsert_daily_report", UpsertDailyReport, 93), GetDailyReportMember := Tagged("get_daily_report", GetDailyReport, 112), DbClientMember := Untagged] by {
      NamespaceUnfold(d, 10);
    }
    assert Namespace(d[..11]) == map[InitMember := Untagged, HandleRequestMember := Untagged, ActionMember := Untagged, CreateDocumentMember := Tagged("create_document", CreateDocument, 39), GetDocumentMember := Tagged("get_document", GetDocument, 51), GetLastDocumentMember := Tagged("get_last_document", GetLastDocument, 63), UpsertDailyReportMember := Tagged("upsert_daily_report", UpsertDailyReport, 93), GetDailyReportMember := Tagged("get_daily_report", GetDailyReport, 112), DbClientMember := Untagged, ActionHandlersMember := Untagged] by {
      NamespaceUnfold(d, 11);
    }
  }

  /** `dir(self)`: the attributes in alphabetical order of their names. */
  const Dir: seq<Member> := [
    InitMember, ActionMember, ActionHandlersMember, CreateDocumentMember, DbClientMember,
    GetDailyReportMember, GetDocumentMember, GetLastDocumentMember, HandleRequestMember, UpsertDailyReportMember
  ]

  /** The registry the loop of `__init__` produces from the attributes
      named in `names`, visited in order. */
  function Registered(ns: map<Member, Attr>, names: seq<Member>): map<string, Handler> {
    if names == [] then map[]
    else
      var m := Registered(ns, names[..|names| - 1]);
      var n := names[|names| - 1];
      if n in ns && ns[n].Tagged? then m[ns[n].tag := ns[n].handler] else m
  }

  lemma RegisteredUnfold(ns: map<Member, Attr>, names: seq<Member>, k: nat)
    requires 0 < k <= |names|
    ensures Registered(ns, names[..k]) ==
      var n := names[k - 1];
      if n in ns && ns[n].Tagged? then Registered(ns, names[..k - 1])[ns[n].tag := ns[n].handler]
      else Registered(ns, names[..k - 1])
  {
    assert names[..k][..k - 1] == names[..k - 1];
  }

  /** Every registered action is the tag of a decorated attribute, and
      maps to that attribute's handler. */
  lemma {:induction false} RegisteredTags(ns: map<Member, Attr>, names: seq<Member>)
    ensures forall a :: a in Registered(ns, names) ==>
              exists n :: n in ns && ns[n].Tagged? && ns[n].tag == a && ns[n].handler == Registered(ns, names)[a]
  {
    if names != [] {
      RegisteredTags(ns, names[..|names| - 1]);
    }
  }

  /** The registry every object starts with. */
  const ActionTable: map<string, Handler> := map[
    "create_document" := CreateDocument,
    "get_daily_report" := GetDailyReport,
    "get_document" := GetDocument,
    "get_last_document" := GetLastDocument,
    "upsert_daily_report" := UpsertDailyReport
  ]

  /** The registration loop of `__init__`. */
  method BuildRegistry(ns: map<Member, Attr>, names: seq<Member>) returns (handlers: map<string, Handler>)
    ensures handlers == Registered(ns, names)
  {
    handlers := map[];
    for i := 0 to |names|
      invariant handlers == Registered(ns, names[..i])
    {
      assert names[..i + 1][..i] == names[..i];
      var name := names[i];
      if name in ns {
        var attr := ns[name];
        if attr.Tagged? {
          handlers := handlers[attr.tag := attr.handler];
        }
      }
    }
    assert names[..|names|] == names;
  }

  lemma RegistryPrefix()
    ensures Registered(Attributes, Dir[..5]) == map["create_document" := CreateDocument]
  {
    assert Dir[..0] == [];
    assert Registered(Attributes, Dir[..1]) == map[] by {
      RegisteredUnfold(Attributes, Dir, 1);
    }
    assert Registered(Attributes, Dir[..2]) == map[] by {
      RegisteredUnfold(Attributes, Dir, 2);
    }
    assert Registered(Attributes, Dir[..3]) == map[] by {
      RegisteredUnfold(Attributes, Dir, 3);
    }
    assert Registered(Attributes, Dir[..4]) == map["create_document" := CreateDocument] by {
      RegisteredUnfold(Attributes, Dir, 4);
    }
    assert Registered(Attributes, Dir[..5]) == map["create_document" := CreateDocument] by {
      RegisteredUnfold(Attributes, Dir, 5);
    }
  }

  lemma RegistryMiddle()
    ensures Registered(Attributes, Dir[..8]) == map["create_document" := CreateDocument, "get_daily_report" := GetDailyReport, "get_document" := GetDocument, "get_last_document" := GetLastDocument]
  {
    RegistryPrefix();
    assert Registered(Attributes, Dir[..6]) == map["create_document" := CreateDocument, "get_daily_report" := GetDailyReport] by {
      RegisteredUnfold(Attributes, Dir, 6);
    }
    assert Registered(Attributes, Dir[..7]) == map["create_document" := CreateDocument, "get_daily_report" := GetDailyReport, "get_document" := GetDocument] by {
      RegisteredUnfold(Attributes, Dir, 7);
    }
    assert Registered(Attributes, Dir[..8]) == map["create_document" := CreateDocument, "get_daily_report" := GetDailyReport, "get_document" := GetDocument, "get_last_document" := GetLastDocument] by {
      RegisteredUnfold(Attributes, Dir, 8);
    }
  }

  /** The registry holds exactly the five actions, each mapped to the
      handler of that name; the duplicated `upsert_daily_report` gives a
      single entry. */
  lemma RegistryIsActionTable()
    ensures Registered(Namespace(ClassBody + InstanceFields), Dir) == ActionTable
  {
    AttributesOfObject();
    RegistryMiddle();
    assert Dir[..10] == Dir;
    assert Registered(Attributes, Dir[..9]) == map["create_document" := CreateDocument, "get_daily_report" := GetDailyReport, "get_document" := GetDocument, "get_last_document" := GetLastDocument] by {
      RegisteredUnfold(Attributes, Dir, 9);
    }
    assert Registered(Attributes, Dir[..10]) == map["create_document" := CreateDocument, "get_daily_report" := GetDailyReport, "get_document" := GetDocument, "get_last_document" := GetLastDocument, "upsert_daily_report" := UpsertDailyReport] by {
      RegisteredUnfold(Attributes, Dir, 10);
    }
  }

  lemma ActionTableKeys()
    ensures ActionTable.Keys == {"create_document", "get_document", "get_last_document", "upsert_daily_report", "get_daily_report"}
  {
  }

  // ---------------------------------------------------------------------
  // Routing.

  const ActionRequired := "Поле 'action' обязательно."

  function UnknownAction(action: string): string {
    "Неизвестное действие: " + action
  }

  /** handle_request up to the call of the handler. */
  function Route(handlers: map<string, Handler>, request: Request): (r: Result<Handler>)
    ensures !Truthy(Get(request, "action")) ==> r == Err(ActionRequired)
    ensures r.Ok? <==> Truthy(Get(request, "action")) && request["action"] in handlers
    ensures r.Ok? ==> r.value == handlers[request["action"]]
    ensures Truthy(Get(request, "action")) && r.Err? ==>
              r.error == UnknownAction(request["action"]) && Contains(r.error, request["action"])
  {
    var action := Get(request, "action");
    if !Truthy(action) then Err(ActionRequired)
    else if action.value !in handlers then
      ContainsMiddle("Неизвестное действие: ", action.value, "");
      assert "Неизвестное действие: " + action.value + "" == UnknownAction(action.value);
      Err(UnknownAction(action.value))
    else Ok(handlers[action.value])
  }

  // ---------------------------------------------------------------------
  // Required fields.

  function Missing(field: string, action: string): string {
    "Поле '" + field + "' обязательно для " + action + "."
  }

  /** Checks the fields in order; the first one that is absent or empty is
      reported. On success, the values of the fields in order. */
  function RequireAll(request: Request, fields: seq<string>, action: string): (r: Result<seq<string>>)
    ensures r.Ok? <==> forall i :: 0 <= i < |fields| ==> Truthy(Get(request, fields[i]))
    ensures r.Ok? ==> |r.value| == |fields| && forall i :: 0 <= i < |fields| ==> Get(request, fields[i]) == Some(r.value[i])
    ensures r.Err? ==>
              exists i :: && 0 <= i < |fields| && !Truthy(Get(request, fields[i]))
                          && (forall j :: 0 <= j < i ==> Truthy(Get(request, fields[j])))
                          && r.error == Missing(fields[i], action)
  {
    if fields == [] then Ok([])
    else if !Truthy(Get(request, fields[0])) then Err(Missing(fields[0], action))
    else
      var rest := RequireAll(request, fields[1..], action);
      if rest.Err? then
        assert forall i :: 1 <= i < |fields| ==> fields[i] == fields[1..][i - 1];
        Err(rest.error)
      else Ok([request[fields[0]]] + rest.value)
  }

  const UpsertFields: seq<string> := ["username", "most_visited_hour", "total"]

  /** upsert_daily_report checks username, then most_visited_hour, then
      total: the first one missing is the one reported. */
  lemma UpsertFieldOrder(request: Request)
    ensures !Truthy(Get(request, "username")) ==>
              RequireAll(request, UpsertFields, "upsert_daily_report") == Err(Missing("username", "upsert_daily_report"))
    ensures Truthy(Get(request, "username")) && !Truthy(Get(request, "most_visited_hour")) ==>
              RequireAll(request, UpsertFields, "upsert_daily_report") == Err(Missing("most_visited_hour", "upsert_daily_report"))
    ensures Truthy(Get(request, "username")) && Truthy(Get(request, "most_visited_hour")) && !Truthy(Get(request, "total")) ==>
              RequireAll(request, UpsertFields, "upsert_daily_report") == Err(Missing("total", "upsert_daily_report"))
  {
    var a := "upsert_daily_report";
    assert UpsertFields[1..] == ["most_visited_hour", "total"];
    assert UpsertFields[1..][1..] == ["total"];
    assert !Truthy(Get(request, "total")) ==> RequireAll(request, ["total"], a) == Err(Missing("total", a));
  }

  const InvalidCreateData := "Некорректные данные: 'username' и 'status' обязательны."

  /** The checks of create_document: both username and status present and
      not empty. */
  function CreateArgs(request: Request): (r: Result<(string, string)>)
    ensures r.Ok? <==> Truthy(Get(request, "username")) && Truthy(Get(request, "status"))
    ensures r.Err? ==> r.error == InvalidCreateData
    ensures r.Ok? ==> Get(request, "username") == Some(r.value.0) && Get(request, "status") == Some(r.value.1)
  {
    var username := Get(request, "username");
    var status := Get(request, "status");
    if !Truthy(username) || !Truthy(status) then Err(InvalidCreateData)
    else Ok((username.value, status.value))
  }

  function CreatedMessage(username: string): (m: string)
    ensures Contains(m, username)
  {
    ContainsMiddle("Документ для пользователя '", username, "' успешно создан.");
    "Документ для пользователя '" + username + "' успешно создан."
  }

  /** The filters get_document forwards to get_activity. */
  function ActivityFilterOf(request: Request): ActivityFilter {
    ActivityFilter(Get(request, "username"), Get(request, "status"),
                   Get(request, "creation_date_start"), Get(request, "creation_date_end"))
  }

  /** The filters get_daily_report forwards to the client. */
  function ReportFilterOf(request: Request): ReportFilter {
    ReportFilter(Get(request, "username"), Get(request, "most_visited_hour"), Get(request, "total"),
                 Get(request, "creation_date_start"), Get(request, "creation_date_end"))
  }

  // ---------------------------------------------------------------------
  // Replies and what each handler does.

  /** A handler's return value: a message, a list of documents, or None. */
  datatype Reply = Message(text: string) | Activities(activities: seq<ActivityDoc>) | Reports(reports: seq<ReportDoc>) | NoReply

  twostate predicate StoreUnchanged(db: Client)
    reads db
  {
    db.activity == old(db.activity) && db.dailyReport == old(db.dailyReport)
  }

  /** create_document: a validation error and no write, or one activity
      row written and a message naming the user. */
  twostate predicate DocumentCreated(db: Client, request: Request, now: int, id: string, new r: Result<Reply>)
    reads db
  {
    var args := CreateArgs(request);
    && (args.Err? ==> r == Err(args.error) && StoreUnchanged(db))
    && (args.Ok? ==>
          && r == Ok(Message(CreatedMessage(args.value.0)))
          && db.activity == old(db.activity)[(args.value.0, WholeSecond(now)) := ActivityRow(id, args.value.1)]
          && db.dailyReport == old(db.dailyReport))
  }

  /** get_document: the client's answer for the request's filters. */
  ghost predicate ActivitiesListed(db: Client, request: Request, r: Result<Reply>, keys: seq<Key>)
    reads db
  {
    var f := ActivityFilterOf(request);
    var bad := FirstBadLiteral(ActivityClauses(f), ActivitySchema, db.literals);
    && (bad.Some? ==> r == Err(QueryFailed(bad.value)))
    && (bad.None? ==> r.Ok? && r.value.Activities? && ActivityAnswer(r.value.activities, keys, db.activity, f, db.literals))
  }

  /** get_daily_report: the client's answer for the request's filters. */
  ghost predicate ReportsListed(db: Client, request: Request, r: Result<Reply>, keys: seq<Key>)
    reads db
  {
    var f := ReportFilterOf(request);
    var bad := FirstBadLiteral(ReportClauses(f), ReportSchema, db.literals);
    && (bad.Some? ==> r == Err(QueryFailed(bad.value)))
    && (bad.None? ==> r.Ok? && r.value.Reports? && ReportAnswer(r.value.reports, keys, db.dailyReport, f, db.literals))
  }

  /** get_last_document: rejected without a username, otherwise the
      user's newest activity, if any. */
  ghost predicate LastListed(db: Client, request: Request, r: Result<Reply>, keys: seq<Key>)
    reads db
  {
    var fields := RequireAll(request, ["username"], "get_last_document");
    && (fields.Err? ==> r == Err(fields.error))
    && (fields.Ok? ==>
          var username := request["username"];
          && r.Ok? && r.value.Activities?
          && var docs := r.value.activities;
          && |docs| <= 1
          && (docs == [] <==> forall k :: k in db.activity ==> k.0 != username)
          && (docs != [] ==>
                |keys| == 1 && IsNewest(db.activity, username, keys[0]) &&
                docs == [ShapeActivity(keys[0], db.activity[keys[0]])]))
  }

  /** upsert_daily_report: a missing field is reported with no store
      access; otherwise the client's upsert with the two strings. */
  twostate predicate ReportUpsertHandled(db: Client, request: Request, now: int, freshId: string, new r: Result<Reply>)
    reads db
  {
    var fields := RequireAll(request, UpsertFields, "upsert_daily_report");
    && (fields.Err? ==> r == Err(fields.error) && StoreUnchanged(db))
    && (fields.Ok? ==>
          var times := ReportTimes(TimeText(fields.value[1]), TimeText(fields.value[2]));
          && db.activity == old(db.activity)
          && (times.Err? ==> r == Err(times.error) && db.dailyReport == old(db.dailyReport))
          && (times.Ok? ==>
                r == Ok(NoReply) &&
                db.dailyReport == Upserted(old(db.dailyReport), fields.value[0], DayStart(now),
                                           times.value.0, times.value.1, freshId)))
  }

  class Functions {
    const db: Client
    var actionHandlers: map<string, Handler>

    constructor (db: Client)
      ensures this.db == db && actionHandlers == ActionTable
    {
      this.db := db;
      var handlers := BuildRegistry(Namespace(ClassBody + InstanceFields), Dir);
      RegistryIsActionTable();
      actionHandlers := handlers;
    }

    method CreateDocument(request: Request, now: int, id: string) returns (r: Result<Reply>)
      modifies db
      ensures DocumentCreated(db, request, now, id, r)
    {
      var args := CreateArgs(request);
      if args.Err? {
        return Err(args.error);
      }
      var (username, status) := args.value;
      db.CreateActivity(username, status, now, id);
      r := Ok(Message(CreatedMessage(username)));
    }

    method GetDocument(request: Request) returns (r: Result<Reply>, ghost keys: seq<Key>)
      ensures r.Ok? <==> FirstBadLiteral(ActivityClauses(ActivityFilterOf(request)), ActivitySchema, db.literals).None?
      ensures r.Ok? ==> r.value.Activities?
      ensures ActivitiesListed(db, request, r, keys)
    {
      var result;
      result, keys := db.GetActivity(ActivityFilterOf(request));
      r := if result.Ok? then Ok(Activities(result.value)) else Err(result.error);
    }

    method GetLastDocument(request: Request) returns (r: Result<Reply>, ghost keys: seq<Key>)
      ensures r.Ok? <==> Truthy(Get(request, "username"))
      ensures r.Ok? ==> r.value.Activities? && |r.value.activities| <= 1
      ensures LastListed(db, request, r, keys)
    {
      var fields := RequireAll(request, ["username"], "get_last_document");
      if fields.Err? {
        return Err(fields.error), [];
      }
      var docs, newest := db.GetLastActivity(fields.value[0]);
      keys := if docs == [] then [] else [newest];
      r := Ok(Activities(docs));
    }

    method UpsertDailyReport(request: Request, now: int, freshId: string) returns (r: Result<Reply>)
      modifies db
      ensures ReportUpsertHandled(db, request, now, freshId, r)
      ensures OnePerDay(old(db.dailyReport)) ==> OnePerDay(db.dailyReport)
      ensures TimesValid(old(db.dailyReport)) ==> TimesValid(db.dailyReport)
    {
      var fields := RequireAll(request, UpsertFields, "upsert_daily_report");
      if fields.Err? {
        return Err(fields.error);
      }
      var done := db.UpsertDailyReport(fields.value[0], TimeText(fields.value[1]), TimeText(fields.value[2]), now, freshId);
      r := if done.Ok? then Ok(NoReply) else Err(done.error);
    }

    method GetDailyReport(request: Request) returns (r: Result<Reply>, ghost keys: seq<Key>)
      ensures r.Ok? <==> FirstBadLiteral(ReportClauses(ReportFilterOf(request)), ReportSchema, db.literals).None?
      ensures r.Ok? ==> r.value.Reports?
      ensures ReportsListed(db, request, r, keys)
    {
      var result;
      result, keys := db.GetDailyReport(ReportFilterOf(request));
      r := if result.Ok? then Ok(Reports(result.value)) else Err(result.error);
    }

    /** handle_request: route by the "action" field, then run the handler.
        A routing error runs no handler and leaves the store as it was. */
    method HandleRequest(request: Request, now: int, freshId: string) returns (r: Result<Reply>, ghost keys: seq<Key>)
      modifies db
      ensures var route := Route(actionHandlers, request);
        && (route.Err? ==> r == Err(route.error) && StoreUnchanged(db))
        && (route == Ok(Handler.CreateDocument) ==> DocumentCreated(db, request, now, freshId, r))
        && (route == Ok(Handler.GetDocument) ==> ActivitiesListed(db, request, r, keys) && StoreUnchanged(db))
        && (route == Ok(Handler.GetLastDocument) ==> LastListed(db, request, r, keys) && StoreUnchanged(db))
        && (route == Ok(Handler.UpsertDailyReport) ==> ReportUpsertHandled(db, request, now, freshId, r))
        && (route == Ok(Handler.GetDailyReport) ==> ReportsListed(db, request, r, keys) && StoreUnchanged(db))
      ensures OnePerDay(old(db.dailyReport)) ==> OnePerDay(db.dailyReport)
      ensures TimesValid(old(db.dailyReport)) ==> TimesValid(db.dailyReport)
    {
      var route := Route(actionHandlers, request);
      if route.Err? {
        return Err(route.error), [];
      }
      keys := [];
      match route.value
      case CreateDocument =>
        r := CreateDocument(request, now, freshId);
      case GetDocument =>
        r, keys := GetDocument(request);
      case GetLastDocument =>
        r, keys := GetLastDocument(request);
      case UpsertDailyReport =>
        r := UpsertDailyReport(request, now, freshId);
      case GetDailyReport =>
        r, keys := GetDailyReport(request);
    }
  }
}
