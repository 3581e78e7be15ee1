/** The workflow configuration: a TOML document read into nested tables,
    addressed by dotted keys such as "simulation.start.year". The
    implementation looks a key up or assigns it by descending one component
    at a time; the service in front of it maps the lookup errors to None and
    the assignment errors to one KeyError, and saves after every successful
    assignment. */
module Config {
  import opened Base
  import opened Text

  /** A TOML table or any other value (string, number, array, date), which
      cannot be indexed by a key. */
  datatype Node = Table(entries: map<string, Node>) | Leaf(text: string)

  const NotSubscriptable := "object is not subscriptable"
  const NoItemAssignment := "object does not support item assignment"

  /** Components of a dotted key: Python's `key.split('.')`. */
  function Components(key: string): (path: seq<string>)
    ensures |path| > 0
  {
    Split(key, '.')
  }

  // ---------------------------------------------------------------------
  // Implementation: descend and assign
  // ---------------------------------------------------------------------

  /** The loop `for k in keys: config = config[k]`: a missing component
      raises KeyError naming it, indexing a non-table raises TypeError. */
  function Lookup(n: Node, path: seq<string>): (r: Result<Node>)
    ensures r.Raise? ==> r.exc.TypeError? || (r.exc.KeyError? && r.exc.key in path)
    decreases |path|
  {
    if |path| == 0 then Ok(n)
    else
      match n
      case Leaf(_) => Raise(TypeError(NotSubscriptable))
      case Table(m) =>
        if path[0] in m then
          var r := Lookup(m[path[0]], path[1..]);
          assert r.Raise? && r.exc.KeyError? ==> r.exc.key in path by {
            if r.Raise? && r.exc.KeyError? {
              var i :| 0 <= i < |path[1..]| && path[1..][i] == r.exc.key;
              assert path[i + 1] == r.exc.key;
            }
          }
          r
        else Raise(KeyError(path[0]))
  }

  /** `for k in keys[:-1]: config = config[k]` then `config[keys[-1]] = v`,
      written as the rebuilt tree: the tables along the path are replaced by
      their updated copies. */
  function Put(n: Node, path: seq<string>, v: Node): (r: Result<Node>)
    requires |path| > 0
    ensures r.Ok? ==> r.value.Table?
    decreases |path|
  {
    match n
    case Leaf(_) => Raise(TypeError(if |path| == 1 then NoItemAssignment else NotSubscriptable))
    case Table(m) =>
      if |path| == 1 then Ok(Table(m[path[0] := v]))
      else if path[0] in m then
        var child :- Put(m[path[0]], path[1..], v);
        Ok(Table(m[path[0] := child]))
      else Raise(KeyError(path[0]))
  }

  /** `get_config_value_impl`: None for a missing configuration, otherwise
      the node the dotted key leads to. */
  function Get(config: Option<Node>, key: string): (r: Result<Option<Node>>)
    ensures config.None? ==> r == Ok(None)
    ensures config.Some? ==> (r.Ok? <==> Lookup(config.value, Components(key)).Ok?)
    ensures config.Some? && r.Ok? ==> r.value == Some(Lookup(config.value, Components(key)).value)
  {
    match config
    case None => Ok(None)
    case Some(n) =>
      var found :- Lookup(n, Components(key));
      Ok(Some(found))
  }

  /** `set_config_value_impl`: a missing configuration cannot be indexed. */
  function Set(config: Option<Node>, key: string, v: Node): (r: Result<Node>)
    ensures config.None? ==> r.Raise? && r.exc.TypeError?
    ensures config.Some? ==> r == Put(config.value, Components(key), v)
  {
    match config
    case None => Raise(TypeError(NotSubscriptable))
    case Some(n) => Put(n, Components(key), v)
  }

  // ---------------------------------------------------------------------
  // Properties of the implementation
  // ---------------------------------------------------------------------

  /** After a successful assignment the same path leads to the new value. */
  lemma {:induction false} LookupAfterPut(n: Node, path: seq<string>, v: Node)
    requires |path| > 0 && Put(n, path, v).Ok?
    ensures Lookup(Put(n, path, v).value, path) == Ok(v)
    decreases |path|
  {
    var m := n.entries;
    if |path| > 1 {
      LookupAfterPut(m[path[0]], path[1..], v);
    }
  }

  /** Two paths diverge when some position holds different components. */
  predicate Diverge(p: seq<string>, q: seq<string>) {
    exists i :: 0 <= i < |p| && i < |q| && p[i] != q[i]
  }

  /** An assignment changes nothing outside its own path: every path that
      diverges from it reads what it read before, error included. */
  lemma {:induction false} PutKeepsOthers(n: Node, path: seq<string>, v: Node, other: seq<string>)
    requires |path| > 0 && Put(n, path, v).Ok?
    requires Diverge(path, other)
    ensures Lookup(Put(n, path, v).value, other) == Lookup(n, other)
    decreases |path|
  {
    var m := n.entries;
    var t := Put(n, path, v).value;
    var i :| 0 <= i < |path| && i < |other| && path[i] != other[i];
    if i == 0 {
      assert t.entries == m[path[0] := t.entries[path[0]]];
    } else {
      assert |path| > 1;
      assert path[1..][i - 1] != other[1..][i - 1];
      PutKeepsOthers(m[path[0]], path[1..], v, other[1..]);
    }
  }

  /** Below the assigned path the tree is the assigned value. */
  lemma {:induction false} PutBelow(n: Node, path: seq<string>, v: Node, rest: seq<string>)
    requires |path| > 0 && Put(n, path, v).Ok?
    ensures Lookup(Put(n, path, v).value, path + rest) == Lookup(v, rest)
    decreases |path|
  {
    var m := n.entries;
    assert (path + rest)[0] == path[0];
    if |path| == 1 {
      assert (path + rest)[1..] == rest;
    } else {
      assert (path + rest)[1..] == path[1..] + rest;
      PutBelow(m[path[0]], path[1..], v, rest);
    }
  }

  /** An assignment fails exactly when the descent to the parent fails or
      reaches a non-table, and then with the descent's own KeyError; it never
      fails for a last component that is not yet there. */
  lemma {:induction false} PutFailsIff(n: Node, path: seq<string>, v: Node)
    requires |path| > 0
    ensures var parent := Lookup(n, path[..|path| - 1]);
            Put(n, path, v).Raise? <==> parent.Raise? || parent.value.Leaf?
    ensures var parent := Lookup(n, path[..|path| - 1]);
            parent.Raise? && parent.exc.KeyError? ==> Put(n, path, v) == Raise(parent.exc)
    decreases |path|
  {
    if |path| > 1 && n.Table? && path[0] in n.entries {
      PutFailsIff(n.entries[path[0]], path[1..], v);
      assert path[..|path| - 1][0] == path[0];
      assert path[..|path| - 1][1..] == path[1..][..|path[1..]| - 1];
    }
  }

  /** A dotted key made of dot-free components addresses exactly those
      components. */
  lemma DottedKey(n: Node, path: seq<string>)
    requires |path| > 0 && forall i :: 0 <= i < |path| ==> NoChar(path[i], '.')
    ensures Components(Join(path, ".")) == path
    ensures Get(Some(n), Join(path, ".")) == (if Lookup(n, path).Ok? then Ok(Some(Lookup(n, path).value))
                                              else Raise(Lookup(n, path).exc))
  {
    SplitJoin(path, '.');
  }

  // ---------------------------------------------------------------------
  // The service: error mapping, save, load
  // ---------------------------------------------------------------------

  /** `get_config_value`: the node, or None when the configuration is
      missing, a component is missing, or a non-table is indexed. */
  function GetConfigValue(config: Option<Node>, key: string): (r: Option<Node>)
    ensures r.Some? <==> config.Some? && Lookup(config.value, Components(key)).Ok?
    ensures r.Some? ==> r.value == Lookup(config.value, Components(key)).value
  {
    match Get(config, key)
    case Ok(found) => found
    case Raise(_) => None
  }

  /** The state `set_config_value` leaves: the in-memory configuration, the
      configurations handed to `save_config` in order, and the outcome. */
  datatype SetReport = SetReport(config: Option<Node>, saves: seq<Node>, outcome: Result<()>)

  function MissingKey(key: string): string {
    "The key '" + key + "' does not exist in the configuration file"
  }

  /** `set_config_value`. `saveError` stands for the file system: Some(e)
      when writing the file fails with message e. */
  function SetConfigValue(config: Option<Node>, key: string, v: Node, saveError: Option<string>): (r: SetReport)
    ensures Set(config, key, v).Raise? ==> r == SetReport(config, [], Raise(KeyError(MissingKey(key))))
    ensures Set(config, key, v).Ok? ==> r.config == Some(Set(config, key, v).value) && r.saves == [Set(config, key, v).value]
    ensures r.outcome.Ok? <==> Set(config, key, v).Ok? && saveError.None?
    ensures r.outcome.Raise? && !r.outcome.exc.KeyError? ==>
              saveError.Some? && r.outcome.exc == GenericException("Error while saving the configuration file: " + saveError.value)
  {
    match Set(config, key, v)
    case Raise(_) => SetReport(config, [], Raise(KeyError(MissingKey(key))))
    case Ok(updated) =>
      var outcome := match saveError
        case None => Ok(())
        case Some(e) => Raise(GenericException("Error while saving the configuration file: " + e));
      SetReport(Some(updated), [updated], outcome)
  }

  /** After a successful `set_config_value` the service reads back the new
      value under the same key and the saved file holds the same tree. */
  lemma SetThenGet(config: Option<Node>, key: string, v: Node, saveError: Option<string>)
    requires SetConfigValue(config, key, v, saveError).outcome.Ok?
    ensures var r := SetConfigValue(config, key, v, saveError);
            GetConfigValue(r.config, key) == Some(v) && r.saves == [r.config.value]
  {
    LookupAfterPut(config.value, Components(key), v);
  }

  /** After a successful `set_config_value` every key whose components
      diverge from the assigned one reads as before. */
  lemma SetKeepsOthers(config: Option<Node>, key: string, v: Node, saveError: Option<string>, other: string)
    requires SetConfigValue(config, key, v, saveError).outcome.Ok?
    requires Diverge(Components(key), Components(other))
    ensures GetConfigValue(SetConfigValue(config, key, v, saveError).config, other) == GetConfigValue(config, other)
  {
    PutKeepsOthers(config.value, Components(key), v, Components(other));
  }

  /** What reading the configuration file produced. */
  datatype TomlFile = Parsed(root: map<string, Node>) | Missing | Malformed(msg: string)

  /** `load_config`: the parsed table; a missing file becomes a
      FileNotFoundError carrying the path, a decode error a generic
      exception carrying the decoder's message. */
  function LoadConfig(path: string, file: TomlFile): (r: Result<Node>)
    ensures r.Ok? <==> file.Parsed?
    ensures r.Ok? ==> r.value == Table(file.root)
    ensures file.Missing? ==> r == Raise(FileNotFoundError("Configuration file not found: " + path))
    ensures file.Malformed? ==> r == Raise(GenericException("Error while loading the configuration file: " + file.msg))
  {
    match file
    case Parsed(root) => Ok(Table(root))
    case Missing => Raise(FileNotFoundError("Configuration file not found: " + path))
    case Malformed(msg) => Raise(GenericException("Error while loading the configuration file: " + msg))
  }
}
