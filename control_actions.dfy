/**
 The PM2 and Docker control routes of server.js: an allow-list gate on the
 requested action, the shell command it selects, and the call of the
 external `run` primitive. `run` is abstract; the model records every
 command it receives in a ghost log, so that a rejected request can be
 shown to run nothing.
 */
module ControlActions {
  import opened JsText

  // ---------------------------------------------------------------------
  // PM2: `allowed.includes(action)`, then `pm2 <action> <pmid>`

  const Pm2Actions: seq<string> := ["restart", "stop", "delete", "start"]

  /** The command the PM2 route runs, or `None` when it rejects the
      action. */
  function Pm2Command(pmid: string, action: string): (c: Option<string>)
    ensures c.Some? <==> action in Pm2Actions
  {
    if action in Pm2Actions then Some("pm2 " + action + " " + pmid) else None
  }

  /** Reads a PM2 command back: the action is the word after `pm2 `, the
      process id everything after the next space. */
  function Pm2Parse(cmd: string): Option<(string, string)> {
    if !StartsWith(cmd, "pm2 ") then None
    else
      var rest := cmd[4..];
      var i := IndexOf(rest, ' ');
      if i == |rest| then None else Some((rest[..i], rest[i + 1..]))
  }

  /** Every command the route runs names the requested action and process,
      and nothing else. */
  lemma Pm2RoundTrip(pmid: string, action: string)
    requires action in Pm2Actions
    ensures Pm2Command(pmid, action).Some?
    ensures Pm2Parse(Pm2Command(pmid, action).value) == Some((action, pmid))
  {
    assert ' ' !in action;
    var cmd := "pm2 " + action + " " + pmid;
    assert cmd[..4] == "pm2 ";
    var rest := cmd[4..];
    assert rest == action + [' '] + pmid;
    IndexOfAfter(action, ' ', pmid);
    assert rest[..|action|] == action;
    assert rest[|action| + 1..] == pmid;
  }

  /** Different requests that pass the gate run different commands. */
  lemma Pm2CommandInjective(p1: string, a1: string, p2: string, a2: string)
    requires a1 in Pm2Actions && a2 in Pm2Actions
    requires Pm2Command(p1, a1) == Pm2Command(p2, a2)
    ensures p1 == p2 && a1 == a2
  {
    Pm2RoundTrip(p1, a1);
    Pm2RoundTrip(p2, a2);
  }

  // ---------------------------------------------------------------------
  // Docker: a lookup of the action in `{ restart, stop, remove }`

  const DockerActions: seq<string> := ["restart", "stop", "remove"]

  /** The command the Docker route runs, or `None` when it rejects the
      action: only the map's own three keys select a command. */
  function DockerCommand(name: string, action: string): (c: Option<string>)
    ensures c.Some? <==> action in DockerActions
  {
    if action == "restart" then Some("docker restart " + name)
    else if action == "stop" then Some("docker stop " + name)
    else if action == "remove" then Some("docker rm -f " + name)
    else None
  }

  /** Reads a Docker command back into the action and the container. */
  function DockerParse(cmd: string): Option<(string, string)> {
    if !StartsWith(cmd, "docker ") then None
    else
      var rest := cmd[7..];
      var i := IndexOf(rest, ' ');
      if i == |rest| then None
      else
        var verb, after := rest[..i], rest[i + 1..];
        if verb == "restart" then Some(("restart", after))
        else if verb == "stop" then Some(("stop", after))
        else if verb == "rm" && StartsWith(after, "-f ") then Some(("remove", after[3..]))
        else None
  }

  lemma DockerVerb(verb: string, name: string)
    requires ' ' !in verb
    ensures var cmd := "docker " + verb + " " + name;
      StartsWith(cmd, "docker ") &&
      IndexOf(cmd[7..], ' ') == |verb| &&
      cmd[7..][..|verb|] == verb && cmd[7..][|verb| + 1..] == name
  {
    var cmd := "docker " + verb + " " + name;
    assert cmd[..7] == "docker ";
    var rest := cmd[7..];
    assert rest == verb + [' '] + name;
    IndexOfAfter(verb, ' ', name);
    assert rest[..|verb|] == verb;
    assert rest[|verb| + 1..] == name;
  }

  /** Every command the route runs names the requested action and
      container; `remove` is always forced (`rm -f`). */
  lemma DockerRoundTrip(name: string, action: string)
    requires action in DockerActions
    ensures DockerCommand(name, action).Some?
    ensures DockerParse(DockerCommand(name, action).value) == Some((action, name))
  {
    if action == "restart" {
      assert "docker restart " + name == "docker " + "restart" + " " + name;
      DockerVerb("restart", name);
    } else if action == "stop" {
      assert "docker stop " + name == "docker " + "stop" + " " + name;
      DockerVerb("stop", name);
      assert "stop" != "restart" by { assert |"stop"| != |"restart"|; }
    } else {
      var after := "-f " + name;
      assert "docker rm -f " + name == "docker " + "rm" + " " + after;
      DockerVerb("rm", after);
      assert |"rm"| != |"restart"| && |"rm"| != |"stop"|;
      assert after[..3] == "-f ";
      assert after[3..] == name;
    }
  }

  lemma DockerCommandInjective(n1: string, a1: string, n2: string, a2: string)
    requires a1 in DockerActions && a2 in DockerActions
    requires DockerCommand(n1, a1) == DockerCommand(n2, a2)
    ensures n1 == n2 && a1 == a2
  {
    DockerRoundTrip(n1, a1);
    DockerRoundTrip(n2, a2);
  }

  // ---------------------------------------------------------------------
  // The Docker gate as written: `!map[action]` on a plain object

  /** What a property read on a JavaScript object literal can give here:
      one of its own string values, a member inherited from
      `Object.prototype` (a function, or the prototype object itself for
      `__proto__`), or `undefined`. */
  datatype JsValue = Undefined | Str(s: string) | Inherited(key: string)

  /** The names every object literal inherits from `Object.prototype`. */
  const ObjectPrototypeKeys: set<string> := {
    "constructor", "hasOwnProperty", "isPrototypeOf", "propertyIsEnumerable",
    "toString", "toLocaleString", "valueOf", "__proto__",
    "__defineGetter__", "__defineSetter__", "__lookupGetter__", "__lookupSetter__" }

  /** The route's `map` object: its own keys and their commands. */
  function DockerMap(name: string): map<string, string> {
    map["restart" := "docker restart " + name,
        "stop" := "docker stop " + name,
        "remove" := "docker rm -f " + name]
  }

  /** `map[action]`: own keys first, then the prototype chain. */
  function Lookup(own: map<string, string>, key: string): (v: JsValue)
    ensures v.Str? <==> key in own
    ensures v.Str? ==> v.s == own[key]
    ensures v.Inherited? ==> v.key == key
    ensures v.Undefined? <==> key !in own && key !in ObjectPrototypeKeys
  {
    if key in own then Str(own[key])
    else if key in ObjectPrototypeKeys then Inherited(key)
    else Undefined
  }

  /** JavaScript truthiness of such a value: functions and objects are
      truthy, strings unless empty. */
  predicate Truthy(v: JsValue) {
    v.Inherited? || (v.Str? && v.s != [])
  }

  /** The gate as written lets a request through when `map[action]` is
      truthy. */
  predicate DockerGateAsWritten(name: string, action: string) {
    Truthy(Lookup(DockerMap(name), action))
  }

  /** On the map's own keys the lookup gives exactly the command
      `DockerCommand` selects. */
  lemma DockerLookupOwnKeys(name: string, action: string)
    requires action in DockerActions
    ensures Lookup(DockerMap(name), action) == Str(DockerCommand(name, action).value)
  {
  }

  /** The gate as written admits exactly the three actions and the names
      inherited from `Object.prototype`. */
  lemma DockerGateAsWrittenAdmits(name: string, action: string)
    ensures DockerGateAsWritten(name, action) <==>
              action in DockerActions || action in ObjectPrototypeKeys
  {
    if action in DockerActions {
      DockerLookupOwnKeys(name, action);
    }
  }

  /** A request for `/api/docker/<name>/toString` passes the gate as
      written although it names no allowed action, and what it hands to
      `run` is a function, not a command. */
  lemma DockerGateAdmitsToString(name: string)
    ensures DockerGateAsWritten(name, "toString")
    ensures DockerCommand(name, "toString").None?
    ensures !Lookup(DockerMap(name), "toString").Str?
  {
    assert "toString" in ObjectPrototypeKeys;
  }

  // ---------------------------------------------------------------------
  // The routes, with `run` recorded in a ghost log

  /** The route's answer: `400 { error: 'invalid action' }`, or the result
      of `run`, stood in for by the command it ran. */
  datatype Reply = Rejected(status: int, error: string) | Ran(command: string)

  class ControlApi {
    /** Every command handed to `run`, oldest first. */
    ghost var commands: seq<string>

    constructor()
      ensures commands == []
    {
      commands := [];
    }

    /** The external `run` primitive: it receives one command. */
    method Run(cmd: string) returns (r: Reply)
      modifies this
      ensures commands == old(commands) + [cmd]
      ensures r == Ran(cmd)
    {
      commands := commands + [cmd];
      r := Ran(cmd);
    }

    /** `POST /api/pm2/:pmid/:action`. */
    method PostPm2(pmid: string, action: string) returns (res: Reply)
      modifies this
      ensures action !in Pm2Actions ==>
                res == Rejected(400, "invalid action") && commands == old(commands)
      ensures action in Pm2Actions ==>
                var cmd := Pm2Command(pmid, action).value;
                res == Ran(cmd) && commands == old(commands) + [cmd]
    {
      if action !in Pm2Actions {
        return Rejected(400, "invalid action");
      }
      var cmd := "pm2 " + action + " " + pmid;
      res := Run(cmd);
    }

    /** `POST /api/docker/:name/:action`, with the gate on the map's own
        keys. */
    method PostDocker(name: string, action: string) returns (res: Reply)
      modifies this
      ensures action !in DockerActions ==>
                res == Rejected(400, "invalid action") && commands == old(commands)
      ensures action in DockerActions ==>
                var cmd := DockerCommand(name, action).value;
                res == Ran(cmd) && commands == old(commands) + [cmd]
    {
      var cmd := DockerCommand(name, action);
      if cmd.None? {
        return Rejected(400, "invalid action");
      }
      res := Run(cmd.value);
    }
  }
}
