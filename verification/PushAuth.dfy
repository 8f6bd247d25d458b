/** Push credentials derived from the assignments (src/app/push-auth-registry.ts). Parsing a device's
    settings is a parameter. */
module PushAuth {
  import opened Common
  import opened Registry

  /** The part of the parsed device settings that the registry reads. */
  datatype Settings = Settings(username: string, password: string)

  datatype Identity = Identity(deviceId: string, username: string, password: string)

  type Parser = Option<string> -> Option<Settings>

  datatype Indexes = Indexes(settings: map<string, Settings>, users: map<string, Identity>)

  function AddDevice(parse: Parser, x: Indexes, a: Assignment): Indexes {
    match parse(a.settingsJson)
    case None => x
    case Some(s) =>
      Indexes(x.settings[a.deviceId := s], x.users[s.username := Identity(a.deviceId, s.username, s.password)])
  }

  function Rebuild(parse: Parser, list: seq<Assignment>): Indexes {
    if list == [] then Indexes(map[], map[])
    else AddDevice(parse, Rebuild(parse, list[..|list| - 1]), list[|list| - 1])
  }

  function Unparsed(parse: Parser, list: seq<Assignment>): seq<string> {
    if list == [] then []
    else Unparsed(parse, list[..|list| - 1]) +
         if parse(list[|list| - 1].settingsJson).None? then [list[|list| - 1].deviceId] else []
  }

  predicate Carries(parse: Parser, a: Assignment, username: string) {
    parse(a.settingsJson).Some? && parse(a.settingsJson).value.username == username
  }

  /** The assignment at `i` is the last one whose settings carry this username. */
  ghost predicate LastCarrier(parse: Parser, list: seq<Assignment>, username: string, i: nat)
    requires i < |list|
  {
    Carries(parse, list[i], username) && forall j :: i < j < |list| ==> !Carries(parse, list[j], username)
  }

  ghost predicate DistinctDevices(list: seq<Assignment>) {
    forall i, j :: 0 <= i < j < |list| ==> list[i].deviceId != list[j].deviceId
  }

  /** A username resolves exactly when some assignment carries it, and then to the last such assignment. */
  lemma {:induction false} UsersResolveToLastCarrier(parse: Parser, list: seq<Assignment>, u: string)
    ensures u in Rebuild(parse, list).users <==> exists i :: 0 <= i < |list| && Carries(parse, list[i], u)
    ensures u in Rebuild(parse, list).users ==>
              exists i :: 0 <= i < |list| && LastCarrier(parse, list, u, i) &&
                          Rebuild(parse, list).users[u] ==
                          Identity(list[i].deviceId, u, parse(list[i].settingsJson).value.password)
  {
    if list != [] {
      var n := |list| - 1;
      var init := list[..n];
      UsersResolveToLastCarrier(parse, init, u);
      if Carries(parse, list[n], u) {
        assert LastCarrier(parse, list, u, n);
      } else if u in Rebuild(parse, init).users {
        var i :| 0 <= i < |init| && LastCarrier(parse, init, u, i) &&
                 Rebuild(parse, init).users[u] ==
                 Identity(init[i].deviceId, u, parse(init[i].settingsJson).value.password);
        assert list[i] == init[i];
        assert forall j :: i < j < n ==> list[j] == init[j];
        assert LastCarrier(parse, list, u, i);
      } else {
        assert forall i :: 0 <= i < n ==> list[i] == init[i];
      }
    }
  }

  /** Device settings are indexed exactly for the assignments that parse. */
  lemma {:induction false} SettingsForParsedDevices(parse: Parser, list: seq<Assignment>, i: nat)
    requires DistinctDevices(list) && i < |list|
    ensures list[i].deviceId in Rebuild(parse, list).settings <==> parse(list[i].settingsJson).Some?
    ensures parse(list[i].settingsJson).Some? ==>
              Rebuild(parse, list).settings[list[i].deviceId] == parse(list[i].settingsJson).value
    ensures parse(list[i].settingsJson).None? <==> list[i].deviceId in Unparsed(parse, list)
  {
    var n := |list| - 1;
    var init := list[..n];
    if i < n {
      SettingsForParsedDevices(parse, init, i);
    } else {
      NoOthersIndexed(parse, init, list[n].deviceId);
    }
  }

  lemma {:induction false} NoOthersIndexed(parse: Parser, list: seq<Assignment>, d: string)
    requires forall i :: 0 <= i < |list| ==> list[i].deviceId != d
    ensures d !in Rebuild(parse, list).settings && d !in Unparsed(parse, list)
  {
    if list != [] {
      NoOthersIndexed(parse, list[..|list| - 1], d);
    }
  }

  /** Every push username resolves to a currently assigned device whose parsed settings carry that
      username and password, and those are the settings indexed for the device. */
  ghost predicate AgreesWith(parse: Parser, x: Indexes, registry: Assigned) {
    && (forall u :: u in x.users ==>
          var p := x.users[u];
          && p.username == u && p.deviceId in registry.at
          && parse(registry.at[p.deviceId].settingsJson) == Some(Settings(u, p.password))
          && p.deviceId in x.settings && x.settings[p.deviceId] == Settings(u, p.password))
    && (forall d :: d in x.settings ==>
          && d in registry.at && parse(registry.at[d].settingsJson) == Some(x.settings[d])
          && x.settings[d].username in x.users)
    && (forall d :: d in registry.at && parse(registry.at[d].settingsJson).Some? ==> d in x.settings)
  }

  lemma RebuildAgrees(parse: Parser, registry: Assigned)
    requires Keyed(registry)
    ensures AgreesWith(parse, Rebuild(parse, registry.Values()), registry)
  {
    var list := registry.Values();
    var x := Rebuild(parse, list);
    assert forall i :: 0 <= i < |list| ==> registry.order[i] in registry.order && list[i].deviceId == registry.order[i];
    assert DistinctDevices(list);
    forall u | u in x.users
      ensures var p := x.users[u];
              && p.username == u && p.deviceId in registry.at
              && parse(registry.at[p.deviceId].settingsJson) == Some(Settings(u, p.password))
              && p.deviceId in x.settings && x.settings[p.deviceId] == Settings(u, p.password)
    {
      UsersResolveToLastCarrier(parse, list, u);
      var i :| 0 <= i < |list| && LastCarrier(parse, list, u, i) &&
               x.users[u] == Identity(list[i].deviceId, u, parse(list[i].settingsJson).value.password);
      SettingsForParsedDevices(parse, list, i);
    }
    forall d | d in x.settings
      ensures d in registry.at && parse(registry.at[d].settingsJson) == Some(x.settings[d])
      ensures x.settings[d].username in x.users
    {
      if forall i :: 0 <= i < |list| ==> list[i].deviceId != d {
        NoOthersIndexed(parse, list, d);
        assert false;
      } else {
        var i :| 0 <= i < |list| && list[i].deviceId == d;
        SettingsForParsedDevices(parse, list, i);
        assert Carries(parse, list[i], x.settings[d].username);
        UsersResolveToLastCarrier(parse, list, x.settings[d].username);
      }
    }
    forall d | d in registry.at && parse(registry.at[d].settingsJson).Some? ensures d in x.settings {
      assert d in registry.order;
      var i :| 0 <= i < |registry.order| && registry.order[i] == d;
      SettingsForParsedDevices(parse, list, i);
    }
  }

  class PushAuthRegistry {
    const parse: Parser
    var settingsByDevice: map<string, Settings>
    var pushAuthByUsername: map<string, Identity>

    constructor (parse: Parser)
      ensures this.parse == parse && Current() == Rebuild(parse, [])
    {
      this.parse := parse;
      settingsByDevice, pushAuthByUsername := map[], map[];
    }

    ghost function Current(): Indexes
      reads this
    {
      Indexes(settingsByDevice, pushAuthByUsername)
    }

    method RebuildFrom(assignments: seq<Assignment>) returns (failures: seq<string>)
      modifies this
      ensures Current() == Rebuild(parse, assignments)
      ensures failures == Unparsed(parse, assignments)
    {
      failures := [];
      settingsByDevice, pushAuthByUsername := map[], map[];
      for i := 0 to |assignments|
        invariant Current() == Rebuild(parse, assignments[..i])
        invariant failures == Unparsed(parse, assignments[..i])
      {
        assert assignments[..i + 1][..i] == assignments[..i];
        var a := assignments[i];
        match parse(a.settingsJson)
        case Some(s) =>
          settingsByDevice := settingsByDevice[a.deviceId := s];
          pushAuthByUsername := pushAuthByUsername[s.username := Identity(a.deviceId, s.username, s.password)];
        case None =>
          failures := failures + [a.deviceId];
      }
      assert assignments[..|assignments|] == assignments;
    }
  }
}
