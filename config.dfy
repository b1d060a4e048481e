/**
 * The per-record configuration store, a nested mapping group -> name -> value,
 * and the lookups over the type's declared configuration options.
 */
module RecordConfig {
  import opened PhpValues
  import opened RecordSchema

  type ConfigStore = map<string, map<string, Value>>

  /** `configValue(group, name)`: the stored value, or null for an absent store, group or name. */
  function ConfigValue(c: Option<ConfigStore>, group: string, name: string): (r: Value)
    ensures c.None? || group !in c.value || name !in c.value[group] ==> r == VNull
    ensures c.Some? && group in c.value && name in c.value[group] ==> r == c.value[group][name]
  {
    if c.Some? && group in c.value && name in c.value[group] && IsSet(c.value[group][name]) then c.value[group][name]
    else VNull
  }

  /** What `configValues` hands back: one group's entries or the whole store. */
  datatype ConfigView = WholeStore(store: ConfigStore) | GroupEntries(entries: map<string, Value>)

  /**
   * `configValues(group)`: the group's entries when a group other than null
   * (or "", which equals null) is asked for and exists; the whole store
   * otherwise; an empty store when none is set.
   */
  function ConfigValues(c: Option<ConfigStore>, group: Option<string>): (r: ConfigView)
    ensures c.None? ==> r == WholeStore(map[])
    ensures c.Some? && group.Some? && group.value != "" && group.value in c.value ==> r == GroupEntries(c.value[group.value])
    ensures c.Some? && (group.None? || group.value == "" || group.value !in c.value) ==> r == WholeStore(c.value)
  {
    if c.None? then WholeStore(map[])
    else if group.Some? && group.value != "" && group.value in c.value then GroupEntries(c.value[group.value])
    else WholeStore(c.value)
  }

  /** `$config[group][name] = value`. */
  function ConfigPut(c: ConfigStore, group: string, name: string, v: Value): (r: ConfigStore)
    ensures r.Keys == c.Keys + {group}
    ensures group in r && name in r[group] && r[group][name] == v
    ensures forall g :: g in c && g != group ==> r[g] == c[g]
    ensures group in c ==> r[group].Keys == c[group].Keys + {name}
    ensures group in c ==> forall n :: n in c[group] && n != name ==> r[group][n] == c[group][n]
  {
    c[group := (if group in c then c[group] else map[])[name := v]]
  }

  /** After setting an entry, reading it back gives the value, and every other entry reads as before. */
  lemma ConfigPutThenValue(c: ConfigStore, group: string, name: string, v: Value, g: string, n: string)
    ensures ConfigValue(Some(ConfigPut(c, group, name, v)), group, name) == v
    ensures (g, n) != (group, name) ==> ConfigValue(Some(ConfigPut(c, group, name, v)), g, n) == ConfigValue(Some(c), g, n)
  {
  }

  /** Whether an option's entry is missing or loosely equal to null, the test `configSetDefaults` applies. */
  predicate NeedsDefault(c: ConfigStore, o: ConfigOption)
  {
    o.group !in c || o.name !in c[o.group] || IsLooseNull(c[o.group][o.name])
  }

  /** The option's `default`, or "" when it declares none. */
  function DefaultOf(o: ConfigOption): Value
  {
    if IsSet(o.default) then o.default else VStr("")
  }

  function ApplyDefault(c: ConfigStore, o: ConfigOption): ConfigStore
  {
    if NeedsDefault(c, o) then ConfigPut(c, o.group, o.name, DefaultOf(o)) else c
  }

  /** The store after `configSetDefaults` has visited the options in order. */
  function ApplyDefaults(c: ConfigStore, opts: seq<ConfigOption>): ConfigStore
  {
    if |opts| == 0 then c else ApplyDefault(ApplyDefaults(c, opts[..|opts| - 1]), opts[|opts| - 1])
  }

  predicate HasEntry(c: ConfigStore, g: string, n: string)
  {
    g in c && n in c[g]
  }

  predicate MentionsEntry(opts: seq<ConfigOption>, g: string, n: string)
  {
    exists i :: 0 <= i < |opts| && opts[i].group == g && opts[i].name == n
  }

  /** An entry that is present and not loosely null is never overwritten by a default. */
  lemma {:induction false} DefaultsKeepSetEntries(c: ConfigStore, opts: seq<ConfigOption>, g: string, n: string)
    requires HasEntry(c, g, n) && !IsLooseNull(c[g][n])
    ensures HasEntry(ApplyDefaults(c, opts), g, n) && ApplyDefaults(c, opts)[g][n] == c[g][n]
  {
    if |opts| > 0 {
      DefaultsKeepSetEntries(c, opts[..|opts| - 1], g, n);
    }
  }

  /** Entries that no option names, and groups no option mentions, are left as they were. */
  lemma {:induction false} DefaultsTouchOnlyOptions(c: ConfigStore, opts: seq<ConfigOption>, g: string, n: string)
    requires !MentionsEntry(opts, g, n)
    ensures HasEntry(ApplyDefaults(c, opts), g, n) <==> HasEntry(c, g, n)
    ensures HasEntry(c, g, n) ==> ApplyDefaults(c, opts)[g][n] == c[g][n]
  {
    if |opts| > 0 {
      var front := opts[..|opts| - 1];
      forall i | 0 <= i < |front| ensures !(front[i].group == g && front[i].name == n) {
        assert front[i] == opts[i];
      }
      DefaultsTouchOnlyOptions(c, front, g, n);
      assert opts[|opts| - 1].group != g || opts[|opts| - 1].name != n;
    }
  }

  /** After the defaults are applied, every declared option has an entry. */
  lemma {:induction false} DefaultsFillOptions(c: ConfigStore, opts: seq<ConfigOption>, i: nat)
    requires i < |opts|
    ensures HasEntry(ApplyDefaults(c, opts), opts[i].group, opts[i].name)
  {
    var m := |opts| - 1;
    var front := opts[..m];
    var before := ApplyDefaults(c, front);
    if i == m {
    } else {
      DefaultsFillOptions(c, front, i);
      assert front[i] == opts[i];
    }
  }

  /** An entry that is missing or loosely null, and that exactly one option names, ends up holding that option's default. */
  lemma {:induction false} DefaultsFillMissing(c: ConfigStore, opts: seq<ConfigOption>, i: nat)
    requires i < |opts| && NeedsDefault(c, opts[i])
    requires forall j :: 0 <= j < |opts| && j != i ==> opts[j].group != opts[i].group || opts[j].name != opts[i].name
    ensures HasEntry(ApplyDefaults(c, opts), opts[i].group, opts[i].name)
    ensures ApplyDefaults(c, opts)[opts[i].group][opts[i].name] == DefaultOf(opts[i])
  {
    DefaultsFillOptions(c, opts, i);
    var m := |opts| - 1;
    var front := opts[..m];
    var g, n := opts[i].group, opts[i].name;
    if i == m {
      forall j | 0 <= j < |front| ensures !(front[j].group == g && front[j].name == n) {
        assert front[j] == opts[j];
      }
      DefaultsTouchOnlyOptions(c, front, g, n);
    } else {
      assert front[i] == opts[i];
      DefaultsFillMissing(c, front, i);
    }
  }

  /** `configDetails(group, name)`: the first declared option for that entry, if any. */
  function ConfigDetails(opts: seq<ConfigOption>, group: string, name: string): (r: Option<ConfigOption>)
    ensures r.None? <==> !MentionsEntry(opts, group, name)
    ensures r.Some? ==> r.value.group == group && r.value.name == name
    ensures r.Some? ==> exists i :: (0 <= i < |opts| && opts[i] == r.value
      && forall j :: 0 <= j < i ==> !(opts[j].group == group && opts[j].name == name))
  {
    if |opts| == 0 then None
    else if opts[0].group == group && opts[0].name == name then Some(opts[0])
    else
      var r := ConfigDetails(opts[1..], group, name);
      assert MentionsEntry(opts, group, name) ==> MentionsEntry(opts[1..], group, name) by {
        if MentionsEntry(opts, group, name) {
          var i :| 0 <= i < |opts| && opts[i].group == group && opts[i].name == name;
          assert opts[1..][i - 1] == opts[i];
        }
      }
      assert MentionsEntry(opts[1..], group, name) ==> MentionsEntry(opts, group, name) by {
        if MentionsEntry(opts[1..], group, name) {
          var i :| 0 <= i < |opts[1..]| && opts[1..][i].group == group && opts[1..][i].name == name;
          assert opts[i + 1] == opts[1..][i];
        }
      }
      if r.Some? then
        assert exists i :: (0 <= i < |opts| && opts[i] == r.value
          && forall j :: 0 <= j < i ==> !(opts[j].group == group && opts[j].name == name)) by {
          var i :| 0 <= i < |opts[1..]| && opts[1..][i] == r.value
            && forall j :: 0 <= j < i ==> !(opts[1..][j].group == group && opts[1..][j].name == name);
          assert opts[i + 1] == r.value;
          forall j | 0 <= j < i + 1 ensures !(opts[j].group == group && opts[j].name == name) {
            if j > 0 { assert opts[j] == opts[1..][j - 1]; }
          }
        }
        r
      else r
  }
}
