/** The process and action objects of the environment model generator
    (core/vtg/emg/common/process.py): the action table of a process, the queries over it,
    renaming and inserting actions with the rewriting of process texts, the declaration and
    definition tables and the keys an exported process carries. */
module EmgProcess {
  import opened Wrappers
  import opened Ordering
  import opened Text

  /** The four action classes: `Subprocess`, `Dispatch`, `Receive` and `Condition`. */
  datatype ActionKind = SubprocessKind | DispatchKind | ReceiveKind | ConditionKind

  /** One of the regular expressions of `generate_regex_set`: the kind of action it finds and
      the action name written into it. */
  datatype Pattern = Pattern(kind: ActionKind, name: string)

  /** A regular-expression search: the text of the leftmost match, if any. */
  type Search = (Pattern, string) -> Option<string>

  /** A search that only ever reports a non-empty piece of the text it searched (each of the
      four expressions matches at least its two delimiters). */
  ghost predicate FindsSubstrings(search: Search) {
    forall p, t :: search(p, t).Some? ==> search(p, t).value != [] && Contains(t, search(p, t).value)
  }

  /** `KeyError` raised for an action name that is not in the table. */
  datatype KeyError = KeyError(key: string)

  /** The dictionary `convert_action` builds for one action: a field is `None` where the key is
      left out. */
  datatype ExportedAction = ExportedAction(
    comment: Option<string>, condition: Option<seq<string>>, process: Option<string>,
    parameters: Option<seq<string>>, peers: Option<seq<string>>, broadcast: Option<bool>,
    replicative: Option<bool>, statements: Option<seq<string>>)

  /** The dictionary `export_process` builds for a process; labels are not modelled. */
  datatype ExportedProcess = ExportedProcess(
    identifier: Option<string>, comment: Option<string>, process: string,
    actions: map<string, ExportedAction>, headers: Option<seq<string>>,
    declarations: Option<map<string, map<string, string>>>,
    definitions: Option<map<string, map<string, seq<string>>>>)


  /** `generate_regex_set`: one expression per action kind, tried in the order subprocess,
      dispatch, receive, condition. */
  function RegexSet(name: string): (r: seq<Pattern>)
    ensures |r| == 4 && forall i :: 0 <= i < |r| ==> r[i].name == name
    ensures forall i, j :: 0 <= i < j < |r| ==> r[i].kind != r[j].kind
    ensures r[0].kind == SubprocessKind && r[1].kind == DispatchKind
    ensures r[2].kind == ReceiveKind && r[3].kind == ConditionKind
  {
    [Pattern(SubprocessKind, name), Pattern(DispatchKind, name),
     Pattern(ReceiveKind, name), Pattern(ConditionKind, name)]
  }

  /** The match of the first expression, in list order, that matches `text`. */
  function FirstMatch(patterns: seq<Pattern>, text: string, search: Search): (r: Option<string>)
    ensures r.None? <==> forall i :: 0 <= i < |patterns| ==> search(patterns[i], text).None?
    ensures r.Some? ==> exists i :: 0 <= i < |patterns| && search(patterns[i], text) == r
                                    && forall j :: 0 <= j < i ==> search(patterns[j], text).None?
    decreases |patterns|
  {
    if patterns == [] then None
    else if search(patterns[0], text).Some? then search(patterns[0], text)
    else
      var r := FirstMatch(patterns[1..], text, search);
      assert r.Some? ==> exists i :: 0 <= i < |patterns| && search(patterns[i], text) == r
                                     && forall j :: 0 <= j < i ==> search(patterns[j], text).None? by {
        if r.Some? {
          var i :| 0 <= i < |patterns[1..]| && search(patterns[1..][i], text) == r
                   && forall j :: 0 <= j < i ==> search(patterns[1..][j], text).None?;
          assert forall j :: 0 <= j < i + 1 ==> search(patterns[j], text).None? by {
            forall j | 0 <= j < i + 1
              ensures search(patterns[j], text).None?
            {
              if j > 0 {
                assert patterns[j] == patterns[1..][j - 1];
              }
            }
          }
        }
      }
      r
  }

  /** What `insert_action` puts in place of the matched text `m`. */
  function NextExpr(position: string, m: string, newExpr: string): (r: string)
    ensures position == "before" ==> r == newExpr + "." + m
    ensures position == "after" ==> r == m + "." + newExpr
    ensures position == "instead" ==> r == newExpr
    ensures position !in {"before", "after", "instead"} ==> r == "(" + m + " | " + newExpr + ")"
    ensures Contains(r, newExpr)
    ensures position != "instead" ==> Contains(r, m)
  {
    if position == "before" then
      ContainsMiddle([], newExpr, "." + m);
      ContainsMiddle(newExpr + ".", m, []);
      assert newExpr + "." + m == [] + newExpr + ("." + m);
      assert newExpr + "." + m == (newExpr + ".") + m + [];
      newExpr + "." + m
    else if position == "after" then
      ContainsMiddle([], m, "." + newExpr);
      ContainsMiddle(m + ".", newExpr, []);
      assert m + "." + newExpr == [] + m + ("." + newExpr);
      assert m + "." + newExpr == (m + ".") + newExpr + [];
      m + "." + newExpr
    else if position == "instead" then
      ContainsMiddle([], newExpr, []);
      assert newExpr == [] + newExpr + [];
      newExpr
    else
      var r := "(" + m + " | " + newExpr + ")";
      ContainsMiddle("(", m, " | " + newExpr + ")");
      ContainsMiddle("(" + m + " | ", newExpr, ")");
      assert r == "(" + m + (" | " + newExpr + ")");
      assert r == ("(" + m + " | ") + newExpr + ")";
      r
  }

  /** The rewriting of one process text by `insert_action`: only the first expression that
      matches is used, and every occurrence of its match is replaced. */
  function InsertRewrite(text: string, oldName: string, newExpr: string, position: string, search: Search): string {
    match FirstMatch(RegexSet(oldName), text, search)
    case None => text
    case Some(m) => ReplaceAll(text, m, NextExpr(position, m, newExpr))
  }

  /** A text that none of the expressions matches is left alone; otherwise the first match
      found in the order subprocess, dispatch, receive, condition is rewritten everywhere, and
      the rewritten text carries the new expression around it. */
  lemma InsertRewriteFirstMatch(text: string, oldName: string, newExpr: string, position: string, search: Search)
    requires FindsSubstrings(search)
    ensures var r := InsertRewrite(text, oldName, newExpr, position, search);
            var ps := RegexSet(oldName);
            && ((forall i :: 0 <= i < 4 ==> search(ps[i], text).None?) ==> r == text)
            && forall i :: 0 <= i < 4 && search(ps[i], text).Some?
                           && (forall j :: 0 <= j < i ==> search(ps[j], text).None?) ==>
                 var m := search(ps[i], text).value;
                 r == ReplaceAll(text, m, NextExpr(position, m, newExpr))
                 && Contains(r, NextExpr(position, m, newExpr))
  {
    var ps := RegexSet(oldName);
    var f := FirstMatch(ps, text, search);
    if f.Some? {
      var k :| 0 <= k < |ps| && search(ps[k], text) == f && forall j :: 0 <= j < k ==> search(ps[j], text).None?;
      ReplaceAllPlants(text, f.value, NextExpr(position, f.value, newExpr));
      forall i | 0 <= i < 4 && search(ps[i], text).Some? && (forall j :: 0 <= j < i ==> search(ps[j], text).None?)
        ensures i == k
      {
        assert !(i < k) && !(k < i);
      }
    }
  }

  /** The rewriting of one process text by `rename_action`: every expression in turn, each
      searched in the text the previous ones left, has the old name replaced by the new one
      within every occurrence of its match. */
  function RenameRewrite(text: string, patterns: seq<Pattern>, name: string, newName: string, search: Search): string
    decreases |patterns|
  {
    if patterns == [] then text
    else
      var t := match search(patterns[0], text)
               case None => text
               case Some(m) => ReplaceAll(text, m, ReplaceAll(m, name, newName));
      RenameRewrite(t, patterns[1..], name, newName, search)
  }

  /** Renaming an action to its own name leaves every text as it was. */
  lemma {:induction false} RenameRewriteIdentity(text: string, patterns: seq<Pattern>, name: string, search: Search)
    ensures RenameRewrite(text, patterns, name, name, search) == text
    decreases |patterns|
  {
    if patterns != [] {
      match search(patterns[0], text) {
        case None =>
        case Some(m) =>
          ReplaceAllIdentity(m, name);
          ReplaceAllIdentity(text, m);
      }
      RenameRewriteIdentity(text, patterns[1..], name, search);
    }
  }

  /** A text in which no expression finds the old name is left as it was. */
  lemma {:induction false} RenameRewriteNoMatch(text: string, patterns: seq<Pattern>, name: string, newName: string, search: Search)
    requires forall i :: 0 <= i < |patterns| ==> search(patterns[i], text).None?
    ensures RenameRewrite(text, patterns, name, newName, search) == text
    decreases |patterns|
  {
    if patterns != [] {
      assert search(patterns[0], text).None?;
      assert forall i :: 0 <= i < |patterns[1..]| ==> patterns[1..][i] == patterns[i + 1];
      RenameRewriteNoMatch(text, patterns[1..], name, newName, search);
    }
  }

  /** A match that the old name does not occur in is kept as it is. */
  lemma RenameRewriteKeepsForeignMatch(text: string, p: Pattern, name: string, newName: string, search: Search)
    requires name != [] && search(p, text).Some? && !Contains(search(p, text).value, name)
    ensures RenameRewrite(text, [p], name, newName, search) == text
  {
    var m := search(p, text).value;
    ReplaceAllAbsent(m, name, newName);
    ReplaceAllIdentity(text, m);
  }

  /** `add_declaration` / `add_definition` on a table keyed by file and then by name: the
      file's table is created when missing, and the entry is set unless `name` is by then a
      key of the outer table (the guard looks at the file keys, not at the file's own table). */
  function AddEntry<V>(table: map<string, map<string, V>>, file: string, name: string, v: V): (r: map<string, map<string, V>>)
    ensures file in r
    ensures forall f :: f != file ==> (f in r <==> f in table) && (f in table ==> r[f] == table[f])
    ensures forall n :: n != name ==> (n in r[file] <==> file in table && n in table[file])
    ensures forall n :: n != name && n in r[file] ==> r[file][n] == table[file][n]
    ensures name in r[file] <==> (name !in table && name != file) || (file in table && name in table[file])
    ensures name in r[file] ==> r[file][name] == if name !in table && name != file then v else table[file][name]
  {
    var t := if file in table then table else table[file := map[]];
    if name !in t then t[file := t[file][name := v]] else t
  }

  /** As written, an existing entry of the file is overwritten. */
  lemma AddEntryOverwrites()
    ensures var t := map["f.c" := map["x" := "int x;"]];
            AddEntry(t, "f.c", "x", "long x;")["f.c"]["x"] == "long x;"
  {
  }

  /** As written, a name that is also a file key is never inserted for another file. */
  lemma AddEntrySkipsFileNames()
    ensures var t := map["x" := map[]];
            "x" !in AddEntry(t, "f.c", "x", "int x;")["f.c"]
  {
  }

  /** An entry that the guard admits is found under its file afterwards, and the table is
      never empty afterwards. */
  lemma {:induction false} AddEntryFound<V>(table: map<string, map<string, V>>, file: string, name: string, v: V)
    requires name !in table && name != file
    ensures var r := AddEntry(table, file, name, v);
            r[file][name] == v && |r| > 0
  {
    var r := AddEntry(table, file, name, v);
    assert file in r.Keys;
  }

  /** `Action` and its subclasses; `kind` stands for the class. */
  class Action {
    var name: string
    const kind: ActionKind
    var comment: Option<string>
    var condition: seq<string>
    /** The process text of a `Subprocess`. */
    var process: string
    var parameters: seq<string>
    /** The external identifiers of the peer processes of a `Dispatch` or `Receive`. */
    var peers: seq<string>
    var broadcast: bool
    var replicative: bool
    var statements: seq<string>

    constructor (name: string, kind: ActionKind)
      ensures this.name == name && this.kind == kind
      ensures comment == None && condition == [] && process == [] && parameters == [] && peers == []
      ensures !broadcast && !replicative && statements == []
    {
      this.name := name;
      this.kind := kind;
      comment := None;
      condition := [];
      process := [];
      parameters := [];
      peers := [];
      broadcast := false;
      replicative := false;
      statements := [];
    }

    /** `convert_action`: the comment, condition and statements only when non-empty, the
        process text of a subprocess, the parameters of a dispatch or receive with its peers
        when there are any, and the broadcast and replicative flags only when set. */
    function Export(): (r: ExportedAction)
      reads this
      ensures r.comment.Some? <==> comment.Some? && comment.value != []
      ensures r.comment.Some? ==> r.comment == comment
      ensures r.condition.Some? <==> condition != []
      ensures r.condition.Some? ==> r.condition.value == condition
      ensures r.process.Some? <==> kind == SubprocessKind
      ensures r.process.Some? ==> r.process.value == process
      ensures r.parameters.Some? <==> kind == DispatchKind || kind == ReceiveKind
      ensures r.parameters.Some? ==> r.parameters.value == parameters
      ensures r.peers.Some? <==> (kind == DispatchKind || kind == ReceiveKind) && |peers| > 0
      ensures r.peers.Some? ==> r.peers.value == peers
      ensures r.broadcast.Some? <==> kind == DispatchKind && broadcast
      ensures r.replicative.Some? <==> kind == ReceiveKind && replicative
      ensures r.broadcast != Some(false) && r.replicative != Some(false)
      ensures r.statements.Some? <==> kind == ConditionKind && statements != []
      ensures r.statements.Some? ==> r.statements.value == statements
    {
      var isPeer := kind == DispatchKind || kind == ReceiveKind;
      ExportedAction(
        if comment.Some? && comment.value != [] then comment else None,
        if condition != [] then Some(condition) else None,
        if kind == SubprocessKind then Some(process) else None,
        if isPeer then Some(parameters) else None,
        if isPeer && |peers| > 0 then Some(peers) else None,
        if kind == DispatchKind && broadcast then Some(true) else None,
        if kind == ReceiveKind && replicative then Some(true) else None,
        if kind == ConditionKind && statements != [] then Some(statements) else None)
    }
  }

  /** A process of the environment model. */
  class Process {
    const name: string
    var comment: Option<string>
    var externalId: Option<string>
    /** The process text. */
    var process: string
    /** The action table, keyed by action name. */
    var actions: map<string, Action>
    var headers: seq<string>
    var declarations: map<string, map<string, string>>
    var definitions: map<string, map<string, seq<string>>>

    constructor (name: string)
      ensures this.name == name && comment == None && externalId == None && process == []
      ensures actions == map[] && headers == [] && declarations == map[] && definitions == map[]
    {
      this.name := name;
      comment := None;
      externalId := None;
      process := [];
      actions := map[];
      headers := [];
      declarations := map[];
      definitions := map[];
    }

    /** Every action is filed under its own name, so distinct keys hold distinct actions. */
    ghost predicate Valid()
      reads this`actions, actions.Values`name
    {
      forall k :: k in actions ==> actions[k].name == k
    }

    /** The names, among `keys` and in their order, of actions of `kind` without peers. */
    function UnmatchedNames(keys: seq<string>, kind: ActionKind): (r: seq<string>)
      reads this, actions.Values
      requires forall k :: k in keys ==> k in actions
      ensures forall k :: k in r <==> k in keys && actions[k].kind == kind && actions[k].peers == []
      ensures StrictlySorted(keys, StrLe) ==> StrictlySorted(r, StrLe)
      decreases |keys|
    {
      if keys == [] then []
      else
        var rest := UnmatchedNames(keys[1..], kind);
        assert forall k :: k in keys[1..] ==> k in keys;
        var r := if actions[keys[0]].kind == kind && actions[keys[0]].peers == [] then [keys[0]] + rest else rest;
        assert StrictlySorted(keys, StrLe) ==> StrictlySorted(r, StrLe) by {
          if StrictlySorted(keys, StrLe) && r != rest {
            assert StrictlySorted(keys[1..], StrLe);
            forall j | 0 < j < |r|
              ensures StrLe(r[0], r[j]) && r[0] != r[j]
            {
              assert r[j] in rest;
              var x :| 0 <= x < |keys[1..]| && keys[1..][x] == r[j];
              assert keys[x + 1] == r[j];
            }
          }
        }
        r
    }

    /** The actions filed under `names`, in that order. */
    function ActionsOf(names: seq<string>): (r: seq<Action>)
      reads this
      requires forall k :: k in names ==> k in actions
      ensures |r| == |names| && forall i :: 0 <= i < |r| ==> r[i] == actions[names[i]]
      decreases |names|
    {
      if names == [] then [] else [actions[names[0]]] + ActionsOf(names[1..])
    }

    /** The actions filed under names of `UnmatchedNames` are of `kind` and have no peers. */
    lemma UnmatchedSound(keys: seq<string>, kind: ActionKind)
      requires forall k :: k in keys ==> k in actions
      ensures var r := ActionsOf(UnmatchedNames(keys, kind));
              forall i :: 0 <= i < |r| ==> r[i] in actions.Values && r[i].kind == kind && r[i].peers == []
    {
      var names := UnmatchedNames(keys, kind);
      var r := ActionsOf(names);
      forall i | 0 <= i < |r|
        ensures r[i] in actions.Values && r[i].kind == kind && r[i].peers == []
      {
        assert names[i] in names;
      }
    }

    /** Every action of `kind` without peers filed under one of `keys` is listed. */
    lemma UnmatchedComplete(keys: seq<string>, kind: ActionKind)
      requires forall k :: k in keys <==> k in actions
      ensures var r := ActionsOf(UnmatchedNames(keys, kind));
              forall k :: k in actions && actions[k].kind == kind && actions[k].peers == [] ==> actions[k] in r
    {
      var names := UnmatchedNames(keys, kind);
      var r := ActionsOf(names);
      forall k | k in actions && actions[k].kind == kind && actions[k].peers == []
        ensures actions[k] in r
      {
        assert k in names;
        var i :| 0 <= i < |names| && names[i] == k;
        assert r[i] == actions[k];
      }
    }

    /** Listed in ascending key order, the actions come in ascending order of their names. */
    lemma UnmatchedOrdered(keys: seq<string>, kind: ActionKind)
      requires forall k :: k in keys ==> k in actions
      requires StrictlySorted(keys, StrLe)
      ensures var r := ActionsOf(UnmatchedNames(keys, kind));
              Valid() ==> forall i, j :: 0 <= i < j < |r| ==> StrLe(r[i].name, r[j].name) && r[i].name != r[j].name
    {
      var names := UnmatchedNames(keys, kind);
      var r := ActionsOf(names);
      StrictlySortedPairs(names, StrLe);
      forall i, j | Valid() && 0 <= i < j < |r|
        ensures StrLe(r[i].name, r[j].name) && r[i].name != r[j].name
      {
        assert names[i] in names && names[j] in names;
        assert r[i].name == names[i] && r[j].name == names[j];
      }
    }

    /** The actions of `kind` without peers, in ascending name order. */
    function UnmatchedActions(kind: ActionKind): (r: seq<Action>)
      reads this, actions.Values
      ensures forall i :: 0 <= i < |r| ==> r[i] in actions.Values && r[i].kind == kind && r[i].peers == []
      ensures forall k :: k in actions && actions[k].kind == kind && actions[k].peers == [] ==> actions[k] in r
      ensures Valid() ==> forall i, j :: 0 <= i < j < |r| ==> StrLe(r[i].name, r[j].name) && r[i].name != r[j].name
    {
      var keys := SortStrings(actions.Keys);
      UnmatchedSound(keys, kind);
      UnmatchedComplete(keys, kind);
      UnmatchedOrdered(keys, kind);
      ActionsOf(UnmatchedNames(keys, kind))
    }

    /** `unmatched_receives`: exactly the receive actions without peers, in ascending name
        order. */
    function UnmatchedReceives(): (r: seq<Action>)
      reads this, actions.Values
      ensures forall i :: 0 <= i < |r| ==> r[i] in actions.Values && r[i].kind == ReceiveKind && r[i].peers == []
      ensures forall k :: k in actions && actions[k].kind == ReceiveKind && actions[k].peers == [] ==> actions[k] in r
      ensures Valid() ==> forall i, j :: 0 <= i < j < |r| ==> StrLe(r[i].name, r[j].name) && r[i].name != r[j].name
    {
      UnmatchedActions(ReceiveKind)
    }

    /** `unmatched_dispatches`: exactly the dispatch actions without peers, in ascending name
        order. */
    function UnmatchedDispatches(): (r: seq<Action>)
      reads this, actions.Values
      ensures forall i :: 0 <= i < |r| ==> r[i] in actions.Values && r[i].kind == DispatchKind && r[i].peers == []
      ensures forall k :: k in actions && actions[k].kind == DispatchKind && actions[k].peers == [] ==> actions[k] in r
      ensures Valid() ==> forall i, j :: 0 <= i < j < |r| ==> StrLe(r[i].name, r[j].name) && r[i].name != r[j].name
    {
      UnmatchedActions(DispatchKind)
    }

    /** The names, among `keys` and in their order, of subprocess actions. */
    function SubprocessNames(keys: seq<string>): (r: seq<string>)
      reads this
      requires forall k :: k in keys ==> k in actions
      ensures forall k :: k in r <==> k in keys && actions[k].kind == SubprocessKind
      ensures (forall i, j :: 0 <= i < j < |keys| ==> keys[i] != keys[j]) ==> forall i, j :: 0 <= i < j < |r| ==> r[i] != r[j]
      decreases |keys|
    {
      if keys == [] then []
      else
        assert forall k :: k in keys[1..] ==> k in keys;
        var rest := SubprocessNames(keys[1..]);
        if actions[keys[0]].kind != SubprocessKind then rest
        else
          var r := [keys[0]] + rest;
          assert (forall i, j :: 0 <= i < j < |keys| ==> keys[i] != keys[j]) ==> forall i, j :: 0 <= i < j < |r| ==> r[i] != r[j] by {
            if forall i, j :: 0 <= i < j < |keys| ==> keys[i] != keys[j] {
              assert keys[0] !in keys[1..];
              assert forall i, j :: 0 <= i < j < |keys[1..]| ==> keys[1..][i] != keys[1..][j];
              assert forall j :: 0 < j < |r| ==> r[j] in rest;
            }
          }
          r
    }

    /** Every subprocess action is among those filed under the subprocess names of `keys`,
        when `keys` lists every name. */
    lemma SubprocessesListed(keys: seq<string>)
      requires forall k :: k in keys <==> k in actions
      ensures forall a :: a in actions.Values && a.kind == SubprocessKind ==> a in ActionsOf(SubprocessNames(keys))
    {
      var names := SubprocessNames(keys);
      var processes := ActionsOf(names);
      forall a | a in actions.Values && a.kind == SubprocessKind
        ensures a in processes
      {
        var k :| k in actions && actions[k] == a;
        var i :| 0 <= i < |names| && names[i] == k;
        assert processes[i] == a;
      }
    }

    /** The subprocess actions, in ascending order of their names, each once. */
    method SubprocessActions() returns (processes: seq<Action>)
      requires Valid()
      ensures forall i, j :: 0 <= i < j < |processes| ==> processes[i] != processes[j]
      ensures forall a :: a in processes <==> a in actions.Values && a.kind == SubprocessKind
    {
      var keys := SortStrings(actions.Keys);
      var names := SubprocessNames(keys);
      processes := ActionsOf(names);
      assert forall i, j :: 0 <= i < j < |processes| ==> processes[i] != processes[j] by {
        forall i, j | 0 <= i < j < |processes|
          ensures processes[i] != processes[j]
        {
          assert names[i] in names && names[j] in names;
          assert processes[i].name == names[i] && processes[j].name == names[j];
        }
      }
      assert forall a :: a in processes ==> a in actions.Values && a.kind == SubprocessKind by {
        forall a | a in processes
          ensures a in actions.Values && a.kind == SubprocessKind
        {
          var i :| 0 <= i < |processes| && processes[i] == a;
          assert names[i] in names;
        }
      }
      SubprocessesListed(keys);
    }

    /** The loop shared by `insert_action` and `rename_action`: rewrite the process's own text,
        then the text of every subprocess action in ascending name order. */
    method RewriteTexts(rewrite: string -> string)
      requires Valid()
      modifies this`process, actions.Values`process
      ensures Valid()
      ensures process == rewrite(old(process))
      ensures forall a :: a in actions.Values ==>
                a.process == if a.kind == SubprocessKind then rewrite(old(a.process)) else old(a.process)
    {
      process := rewrite(process);
      var processes := SubprocessActions();
      RewriteEach(processes, rewrite);
    }

    /** Rewrite the text of each of the distinct actions `processes`, in order. */
    static method RewriteEach(processes: seq<Action>, rewrite: string -> string)
      requires forall j, l :: 0 <= j < l < |processes| ==> processes[j] != processes[l]
      modifies (set a | a in processes)`process
      ensures forall a :: a in processes ==> a.process == rewrite(old(a.process))
    {
      var i := 0;
      while i < |processes|
        invariant 0 <= i <= |processes|
        invariant forall j :: 0 <= j < |processes| ==>
                    processes[j].process == if j < i then rewrite(old(processes[j].process)) else old(processes[j].process)
      {
        processes[i].process := rewrite(processes[i].process);
        i := i + 1;
      }
    }

    /** `rename_action`: refile the action under its new name, rename it, and rewrite the old
        name in every text; an unknown name raises `KeyError` and changes nothing. */
    method RenameAction(oldName: string, newName: string, search: Search) returns (err: Option<KeyError>)
      requires Valid()
      modifies this`actions, this`process, actions.Values`process, actions.Values`name
      ensures Valid()
      ensures oldName !in old(actions) ==> err == Some(KeyError(oldName)) && unchanged(this) && unchanged(old(actions.Values))
      ensures oldName in old(actions) ==>
                && err == None
                && actions == (old(actions) - {oldName})[newName := old(actions[oldName])]
                && process == RenameRewrite(old(process), RegexSet(oldName), oldName, newName, search)
                && (forall k :: k in actions ==>
                      var a := actions[k];
                      a.process == if a.kind == SubprocessKind
                                   then RenameRewrite(old(a.process), RegexSet(oldName), oldName, newName, search)
                                   else old(a.process))
      ensures oldName in old(actions) && newName in old(actions) && newName != oldName ==>
                var displaced := old(actions)[newName];
                displaced.name == newName && displaced.process == old(displaced.process)
    {
      if oldName !in actions {
        return Some(KeyError(oldName));
      }
      var action := actions[oldName];
      action.name := newName;
      actions := actions - {oldName};
      actions := actions[action.name := action];
      RewriteTexts(t => RenameRewrite(t, RegexSet(oldName), oldName, newName, search));
      err := None;
    }

    /** `insert_action`: with position "instead" drop the old action, then rewrite every
        text where an expression for the old name matches; an empty or unknown old name
        raises `KeyError` and changes nothing. */
    method InsertAction(oldName: string, newExpr: string, position: string, search: Search) returns (err: Option<KeyError>)
      requires Valid()
      modifies this`actions, this`process, actions.Values`process
      ensures Valid()
      ensures oldName == [] || oldName !in old(actions) ==>
                err == Some(KeyError(oldName)) && unchanged(this) && unchanged(old(actions.Values))
      ensures oldName != [] && oldName in old(actions) ==>
                && err == None
                && actions == (if position == "instead" then old(actions) - {oldName} else old(actions))
                && process == InsertRewrite(old(process), oldName, newExpr, position, search)
                && (forall k :: k in actions ==>
                      actions[k].process == if actions[k].kind == SubprocessKind
                                            then InsertRewrite(old(actions[k].process), oldName, newExpr, position, search)
                                            else old(actions[k].process))
                && (position == "instead" ==> old(actions)[oldName].process == old(actions[oldName].process))
    {
      if oldName == [] || oldName !in actions {
        return Some(KeyError(oldName));
      }
      if position == "instead" {
        actions := actions - {oldName};
      }
      RewriteTexts(t => InsertRewrite(t, oldName, newExpr, position, search));
      err := None;
    }

    /** `add_declaration`. */
    method AddDeclaration(file: string, name: string, s: string)
      modifies this`declarations
      ensures declarations == AddEntry(old(declarations), file, name, s)
      ensures file in declarations && (Valid() ==> Export().declarations.Some?)
    {
      if file !in declarations {
        declarations := declarations[file := map[]];
      }
      if name !in declarations {
        declarations := declarations[file := declarations[file][name := s]];
      }
      assert file in declarations.Keys;
    }

    /** `add_definition`. */
    method AddDefinition(file: string, name: string, strings: seq<string>)
      modifies this`definitions
      ensures definitions == AddEntry(old(definitions), file, name, strings)
      ensures file in definitions && (Valid() ==> Export().definitions.Some?)
    {
      if file !in definitions {
        definitions := definitions[file := map[]];
      }
      if name !in definitions {
        definitions := definitions[file := definitions[file][name := strings]];
      }
      assert file in definitions.Keys;
    }

    /** `export_process`: the identifier, comment, process text and actions always, and each of
        the headers, declarations and definitions only when it is not empty. */
    function Export(): (r: ExportedProcess)
      requires Valid()
      reads this, actions.Values
      ensures r.identifier == externalId && r.comment == comment && r.process == process
      ensures r.actions.Keys == actions.Keys
      ensures forall a :: a in actions.Values ==> a.name in r.actions && r.actions[a.name] == a.Export()
      ensures forall k :: k in actions ==> r.actions[k] == actions[k].Export()
      ensures r.headers.Some? <==> |headers| > 0
      ensures r.headers.Some? ==> r.headers.value == headers
      ensures r.declarations.Some? <==> |declarations| > 0
      ensures r.declarations.Some? ==> r.declarations.value == declarations
      ensures r.definitions.Some? <==> |definitions| > 0
      ensures r.definitions.Some? ==> r.definitions.value == definitions
    {
      ExportedProcess(
        externalId, comment, process,
        map k | k in actions :: actions[k].Export(),
        if |headers| > 0 then Some(headers) else None,
        if |declarations| > 0 then Some(declarations) else None,
        if |definitions| > 0 then Some(definitions) else None)
    }
  }
}
