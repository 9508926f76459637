/** The plugin hot-reload plugin: saving its own configuration, reloading the
    chosen plugin into memory and re-registering its jobs, and the list of
    plugins its form offers. The plugin manager, the scheduler and the host's
    configuration store are outside the model: whether a reload step succeeds
    is an input, and what is asked of them is recorded as an action. */
module PluginReload {
  import opened Decimal
  import opened Py

  /** The identifier of this plugin, which it never keeps selected. */
  const SelfId := "PluginReload"

  /** The two fields `init_plugin` sets: `_plugin_id` and `_previous_state`. */
  datatype State = State(pluginId: Value, previousState: Value)

  // ---------------------------------------------------------------------
  // Saving the configuration (`__update_config`)

  /** `__update_config()`: the mapping handed to `update_config`. Nothing is
      kept when the selected plugin is this one; otherwise the switch is
      always kept, and the selection only when the switch is on. */
  function UpdateConfig(st: State): (m: Config)
    ensures st.pluginId == Str(SelfId) ==> m == map[]
    ensures st.pluginId != Str(SelfId) ==>
      && "previous_state" in m && m["previous_state"] == st.previousState
      && ("plugin_id" in m <==> Truthy(st.previousState))
      && ("plugin_id" in m ==> m["plugin_id"] == st.pluginId)
    ensures forall k :: k in m ==> k == "previous_state" || k == "plugin_id"
  {
    if st.pluginId == Str(SelfId) then map[]
    else if Truthy(st.previousState) then
      map["previous_state" := st.previousState, "plugin_id" := st.pluginId]
    else
      map["previous_state" := st.previousState]
  }

  // ---------------------------------------------------------------------
  // Reloading (`__reload`)

  /** What the plugin asks of the host, in order. */
  datatype Action =
    | SaveConfig(mapping: Config)     // `update_config(config_mapping)`
    | LoadPlugin(id: Value)           // `PluginManager().reload_plugin(id)`
    | UpdatePluginJob(id: Value)      // `Scheduler().update_plugin_job(id)`

  datatype ReloadRun = ReloadRun(actions: seq<Action>, completed: bool)

  /** `__reload(plugin_id)`, with `loadOk` and `jobOk` whether the two host
      calls return normally. A failed load stops before the scheduler is
      touched; either failure is logged and swallowed. */
  function Reload(id: Value, loadOk: bool, jobOk: bool): (r: ReloadRun)
    ensures 1 <= |r.actions| <= 2 && r.actions[0] == LoadPlugin(id)
    ensures UpdatePluginJob(id) in r.actions <==> loadOk
    ensures forall i :: 0 < i < |r.actions| ==> r.actions[i] != LoadPlugin(id)
    ensures forall a :: a in r.actions ==> a == LoadPlugin(id) || a == UpdatePluginJob(id)
    ensures r.completed <==> loadOk && jobOk
  {
    if !loadOk then ReloadRun([LoadPlugin(id)], false)
    else ReloadRun([LoadPlugin(id), UpdatePluginJob(id)], jobOk)
  }

  // ---------------------------------------------------------------------
  // Initialisation (`init_plugin`)

  datatype InitRun = InitRun(state: State, actions: seq<Action>, completed: bool)

  /** `init_plugin(config)` from state `st`. An absent or empty configuration
      changes nothing. Otherwise both fields are read (a missing key reads as
      `None`), the configuration is saved, and a reload follows exactly when
      the selection is truthy. */
  function Init(st: State, config: Option<Config>, loadOk: bool, jobOk: bool): (r: InitRun)
    ensures !HasConfig(config) ==> r.state == st && r.actions == [] && !r.completed
    ensures HasConfig(config) ==>
      && r.state == State(Get(config.value, "plugin_id", Null), Get(config.value, "previous_state", Null))
      && 1 <= |r.actions|
      && r.actions[0] == SaveConfig(UpdateConfig(r.state))
    ensures HasConfig(config) && !Truthy(r.state.pluginId) ==>
      r.actions == [SaveConfig(UpdateConfig(r.state))]
    ensures HasConfig(config) && Truthy(r.state.pluginId) ==>
      r.actions[1..] == Reload(r.state.pluginId, loadOk, jobOk).actions
    ensures (exists i :: 0 <= i < |r.actions| && r.actions[i].LoadPlugin?)
      <==> HasConfig(config) && Truthy(r.state.pluginId)
    ensures forall a :: a in r.actions && !a.SaveConfig? ==> a.id == r.state.pluginId
    ensures r.completed <==> HasConfig(config) && Truthy(r.state.pluginId) && loadOk && jobOk
  {
    if !HasConfig(config) then InitRun(st, [], false)
    else
      var c := config.value;
      var next := State(Get(c, "plugin_id", Null), Get(c, "previous_state", Null));
      var save := [SaveConfig(UpdateConfig(next))];
      if !Truthy(next.pluginId) then InitRun(next, save, false)
      else
        var reload := Reload(next.pluginId, loadOk, jobOk);
        assert (save + reload.actions)[1] == LoadPlugin(next.pluginId);
        InitRun(next, save + reload.actions, reload.completed)
  }

  /** The host restarts the plugin with what it last saved. With the switch
      off the selection is dropped and no reload happens; with it on the
      same plugin is reloaded again. Either way the same mapping is saved
      again, and a mapping emptied by selecting this plugin leaves nothing
      to do at all. */
  lemma RestartFromSaved(st: State, any: State, loadOk: bool, jobOk: bool)
    ensures var m := UpdateConfig(st);
      var r := Init(any, Some(m), loadOk, jobOk);
      && (st.pluginId == Str(SelfId) ==> r.actions == [] && r.state == any)
      && (st.pluginId != Str(SelfId) ==>
            && r.actions[0] == SaveConfig(m)
            && r.state.previousState == st.previousState
            && ((exists i :: 0 <= i < |r.actions| && r.actions[i].LoadPlugin?)
                  <==> Truthy(st.previousState) && Truthy(st.pluginId))
            && (Truthy(st.previousState) ==> r.state == st))
  {
  }

  /** The form's initial data: no selection, switch on. */
  const FormDefaults: Config := map["plugin_id" := Str(""), "previous_state" := Bool(true)]

  /** Saving the form untouched stores it as it is and reloads nothing. */
  lemma FormDefaultsReloadNothing(any: State, loadOk: bool, jobOk: bool)
    ensures var r := Init(any, Some(FormDefaults), loadOk, jobOk);
      && r.actions == [SaveConfig(FormDefaults)]
      && !r.completed
  {
    assert "plugin_id" in FormDefaults;
    var r := Init(any, Some(FormDefaults), loadOk, jobOk);
    assert r.state == State(Str(""), Bool(true));
    assert UpdateConfig(r.state) == FormDefaults;
  }

  // ---------------------------------------------------------------------
  // The plugin list of the form (`get_form`)

  /** A plugin installed locally, as the plugin manager describes it. */
  datatype LocalPlugin = LocalPlugin(id: string, name: string, version: string)

  /** One entry of the selection list. */
  datatype SelectItem = SelectItem(title: string, value: string, name: string)

  /** The local plugins that are running, in the plugin manager's order. */
  function RunningPlugins(local: seq<LocalPlugin>, running: set<string>): (r: seq<LocalPlugin>)
    ensures |r| <= |local|
    ensures forall p :: p in r <==> p in local && p.id in running
  {
    if |local| == 0 then []
    else (if local[0].id in running then [local[0]] else []) + RunningPlugins(local[1..], running)
  }

  /** Filtering a concatenation filters each part. */
  lemma {:induction false} RunningPluginsConcat(a: seq<LocalPlugin>, b: seq<LocalPlugin>, running: set<string>)
    ensures RunningPlugins(a + b, running) == RunningPlugins(a, running) + RunningPlugins(b, running)
  {
    if |a| == 0 {
      assert a + b == b;
    } else {
      assert (a + b)[1..] == a[1..] + b;
      RunningPluginsConcat(a[1..], b, running);
    }
  }

  /** `f"{index}. {name} v{version}"`. */
  function Title(index: nat, p: LocalPlugin): string {
    NatToString(index) + ". " + p.name + " v" + p.version
  }

  /** The entry for the plugin at 1-based position `index`. */
  function Item(index: nat, p: LocalPlugin): SelectItem {
    SelectItem(Title(index, p), p.id, p.name)
  }

  /** `enumerate(shown, start=1)` turned into entries. */
  method Numbered(shown: seq<LocalPlugin>) returns (options: seq<SelectItem>)
    ensures |options| == |shown|
    ensures forall i :: 0 <= i < |options| ==> options[i] == Item(i + 1, shown[i])
  {
    options := [];
    var n := 0;
    while n < |shown|
      invariant 0 <= n <= |shown|
      invariant |options| == n
      invariant forall i :: 0 <= i < n ==> options[i] == Item(i + 1, shown[i])
    {
      options := options + [Item(n + 1, shown[n])];
      n := n + 1;
    }
  }

  /** The options of the selection list: one per running local plugin, in
      order, numbered from 1. */
  method PluginOptions(local: seq<LocalPlugin>, running: set<string>) returns (options: seq<SelectItem>)
    ensures var shown := RunningPlugins(local, running);
      && |options| == |shown|
      && (forall i :: 0 <= i < |options| ==>
            options[i].value == shown[i].id && options[i].name == shown[i].name
            && options[i].title == Title(i + 1, shown[i]))
    ensures forall i :: 0 <= i < |options| ==> options[i].value in running
    ensures forall p :: p in local && p.id in running ==>
      exists i :: 0 <= i < |options| && options[i].value == p.id && options[i].name == p.name
  {
    var shown := RunningPlugins(local, running);
    options := Numbered(shown);
    forall p | p in local && p.id in running
      ensures exists i :: 0 <= i < |options| && options[i].value == p.id && options[i].name == p.name
    {
      assert p in shown;
      var i :| 0 <= i < |shown| && shown[i] == p;
      assert options[i] == Item(i + 1, p);
    }
    assert forall i :: 0 <= i < |shown| ==> shown[i] in shown;
  }

  /** The number in front of a title reads back as its position. */
  lemma {:induction false} TitleNumber(index: nat, p: LocalPlugin)
    ensures var t := Title(index, p); var k := |NatToString(index)|;
      && k < |t| && AllDigits(t[..k]) && t[k] == '.'
      && ValueOf(t[..k]) == index
  {
    var t := Title(index, p);
    var d := NatToString(index);
    assert t[..|d|] == d;
    assert t[|d|] == '.';
    ValueOfNatToString(index);
  }

  /** Titles of different positions differ, whatever the plugins: the
      digits before the first `.` tell them apart. */
  lemma {:induction false} TitlesDistinct(i: nat, j: nat, p: LocalPlugin, q: LocalPlugin)
    requires i != j
    ensures Title(i, p) != Title(j, q)
  {
    var a := Title(i, p);
    var b := Title(j, q);
    var ki := |NatToString(i)|;
    var kj := |NatToString(j)|;
    TitleNumber(i, p);
    TitleNumber(j, q);
    if ki < kj {
      assert IsDigit(b[..kj][ki]);
      assert a[ki] != b[ki];
    } else if kj < ki {
      assert IsDigit(a[..ki][kj]);
      assert a[kj] != b[kj];
    } else {
      assert a[..ki] != b[..kj];
    }
  }
}
