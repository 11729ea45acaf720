/** `getQueryItems` of CodePushUtils.swift: the query string of an update check. */
module Utils {
  import opened Optionals
  import opened DataContracts

  /** `URLQueryItem`. */
  datatype QueryItem = QueryItem(name: string, value: Option<string>)

  /** The value of the first item with the given name, as a URL query lookup finds it. */
  function QueryValue(items: seq<QueryItem>, name: string): (v: Option<Option<string>>)
    ensures v.None? <==> forall i :: 0 <= i < |items| ==> items[i].name != name
  {
    if items == [] then None
    else if items[0].name == name then Some(items[0].value)
    else QueryValue(items[1..], name)
  }

  /** The lookup finds the first item that carries the name. */
  lemma {:induction false} QueryValueFirst(items: seq<QueryItem>, i: nat, name: string)
    requires i < |items| && items[i].name == name
    requires forall j :: 0 <= j < i ==> items[j].name != name
    ensures QueryValue(items, name) == Some(items[i].value)
  {
    if i > 0 {
      QueryValueFirst(items[1..], i - 1, name);
    }
  }

  /** The names of the items, in order. */
  function Names(items: seq<QueryItem>): (names: seq<string>)
    ensures |names| == |items|
    ensures forall i :: 0 <= i < |items| ==> names[i] == items[i].name
  {
    if items == [] then [] else [items[0].name] + Names(items[1..])
  }

  /** The four items appVersion, clientUniqueId, deploymentKey, packageHash, in this order. */
  function GetQueryItems(request: UpdateRequest): (items: seq<QueryItem>)
    ensures Names(items) == ["appVersion", "clientUniqueId", "deploymentKey", "packageHash"]
    ensures QueryValue(items, "appVersion") == Some(request.appVersion)
    ensures QueryValue(items, "clientUniqueId") == Some(request.clientUniqueId)
    ensures QueryValue(items, "deploymentKey") == Some(request.deploymentKey)
    ensures QueryValue(items, "packageHash") == Some(request.packageHash)
  {
    var items := [QueryItem("appVersion", request.appVersion),
                  QueryItem("clientUniqueId", request.clientUniqueId),
                  QueryItem("deploymentKey", request.deploymentKey),
                  QueryItem("packageHash", request.packageHash)];
    QueryValueFirst(items, 0, "appVersion");
    QueryValueFirst(items, 1, "clientUniqueId");
    QueryValueFirst(items, 2, "deploymentKey");
    QueryValueFirst(items, 3, "packageHash");
    items
  }

  /** Neither the label nor `isCompanion` reaches the query string. */
  lemma QueryItemsOmitLabel(request: UpdateRequest)
    ensures QueryValue(GetQueryItems(request), "label") == None
    ensures QueryValue(GetQueryItems(request), "isCompanion") == None
  {
    var items := GetQueryItems(request);
    var names := Names(items);
    assert "label" !in names && "isCompanion" !in names;
    assert forall i :: 0 <= i < |items| ==> items[i].name == names[i];
  }

  /** Two requests give the same query string exactly when they agree on the four fields sent. */
  lemma QueryItemsDetermineRequest(r1: UpdateRequest, r2: UpdateRequest)
    ensures GetQueryItems(r1) == GetQueryItems(r2) <==>
            (r1.appVersion == r2.appVersion && r1.clientUniqueId == r2.clientUniqueId &&
             r1.deploymentKey == r2.deploymentKey && r1.packageHash == r2.packageHash)
  {
    if GetQueryItems(r1) == GetQueryItems(r2) {
      assert GetQueryItems(r1)[0] == GetQueryItems(r2)[0];
      assert GetQueryItems(r1)[1] == GetQueryItems(r2)[1];
      assert GetQueryItems(r1)[2] == GetQueryItems(r2)[2];
      assert GetQueryItems(r1)[3] == GetQueryItems(r2)[3];
    }
  }
}
