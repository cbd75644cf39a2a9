/**
 How every host turns the same rules into publishers and subscriptions: bridge_factory.cpp,
 lines 66-76, 152-179, 565-650, and topic_factory.cpp, lines 93-113, 142-232, 433-466, 663-667.
 */
module Routing {
  import opened Common
  import opened Envelope
  import opened KeySpace
  import opened Receiver

  // ----- Host selections -----

  predicate IsDrone(host: string) {
    "drone" <= host
  }

  predicate Covers(selector: string, host: string) {
    selector == "all" || if selector == "all_drone" then IsDrone(host) else selector == host
  }

  predicate Known(selector: string, hosts: set<string>) {
    selector == "all" || selector == "all_drone" || selector in hosts
  }

  ghost predicate CoveredBy(selection: seq<string>, host: string) {
    exists i :: 0 <= i < |selection| && Covers(selection[i], host)
  }

  method SwitchOn(before: map<string, bool>, dronesOnly: bool) returns (output: map<string, bool>)
    ensures output.Keys == before.Keys
    ensures forall h <- output :: output[h] <==> before[h] || !dronesOnly || IsDrone(h)
  {
    output := before;
    var rest := before.Keys;
    while rest != {}
      decreases |rest|
      invariant rest <= before.Keys && output.Keys == before.Keys
      invariant forall h <- output :: output[h] <==> before[h] || (h !in rest && (!dronesOnly || IsDrone(h)))
    {
      var host :| host in rest;
      rest := rest - {host};
      if !dronesOnly || IsDrone(host) {
        output := output[host := true];
      }
    }
  }

  method ExpandHostSelection(selection: seq<string>, before: map<string, bool>)
    returns (result: Result<map<string, bool>, string>)
    ensures result.Ok? <==> forall i :: 0 <= i < |selection| ==> Known(selection[i], before.Keys)
    ensures result.Err? ==> result.error in selection && !Known(result.error, before.Keys)
    ensures result.Ok? ==>
              && result.value.Keys == before.Keys
              && forall h <- before :: result.value[h] <==> before[h] || CoveredBy(selection, h)
  {
    var output := before;
    for i := 0 to |selection|
      invariant output.Keys == before.Keys
      invariant forall k :: 0 <= k < i ==> Known(selection[k], before.Keys)
      invariant forall h <- before :: output[h] <==> before[h] || CoveredBy(selection[..i], h)
    {
      ghost var last := output;
      var selected := selection[i];
      if selected == "all" {
        output := SwitchOn(output, false);
      } else if selected == "all_drone" {
        output := SwitchOn(output, true);
      } else {
        if selected !in output {
          return Err(selected);
        }
        output := output[selected := true];
      }
      forall h | h in before
        ensures output[h] <==> before[h] || CoveredBy(selection[..i + 1], h)
      {
        CoveredNext(selection, i, h);
      }
    }
    assert selection[..|selection|] == selection;
    result := Ok(output);
  }

  lemma CoveredNext(selection: seq<string>, i: nat, host: string)
    requires i < |selection|
    ensures CoveredBy(selection[..i + 1], host) <==> CoveredBy(selection[..i], host) || Covers(selection[i], host)
  {
    if CoveredBy(selection[..i], host) {
      var k: nat :| k < i && Covers(selection[..i][k], host);
      assert Covers(selection[..i + 1][k], host);
    }
    if Covers(selection[i], host) {
      assert Covers(selection[..i + 1][i], host);
    }
  }

  // The selectors, written out
  lemma SelectorMeans(selector: string, host: string, hosts: set<string>)
    ensures selector == "all" ==> Covers(selector, host) && Known(selector, hosts)
    ensures selector == "all_drone" ==>
              Known(selector, hosts) && (Covers(selector, host) <==> |host| >= 5 && host[..5] == "drone")
    ensures selector != "all" && selector != "all_drone" ==>
              (Covers(selector, host) <==> selector == host) && (Known(selector, hosts) <==> selector in hosts)
  {
    assert |"all"| != |"all_drone"|;
    assert |"drone"| == 5;
    if |host| >= 5 {
      assert "drone" <= host <==> host[..5] == "drone";
    }
  }

  // ----- Rules and what a host builds from them -----

  const DRONE_ID_NULL := -9999
  const DRONE_PREFIX := "/drone_{id}"

  // A topic entry after expandHostSelection; name is the configured name, kept as wire_name_.
  datatype Rule = Rule(
    name: string,
    rosType: string,
    qos: QosClass,
    cloudCompress: bool,
    hasPrefix: bool,
    samePrefix: bool,
    dynamicDestination: bool,
    sources: map<string, bool>,
    destinations: map<string, bool>)

  // What one host knows. hosts lists the configured hosts in map order; idText and parseId
  // stand for std::to_string and std::stoi, md5 for the compiled-in checksums.
  datatype Config = Config(
    host: string,
    droneId: int,
    hosts: seq<string>,
    debug: bool,
    imageSession: bool,
    cloudSession: bool,
    idText: int -> string,
    parseId: string -> Option<int>,
    md5: string -> string)

  datatype Session = ControlSession | ImageSession | CloudSession

  function SessionFor(c: Config, rosType: string): Session {
    if c.imageSession && rosType == "sensor_msgs/Image" then ImageSession
    else if c.cloudSession && rosType == "sensor_msgs/PointCloud2" then CloudSession
    else ControlSession
  }

  // A sending TopicFactory: one fanout publisher, or one publisher per destination
  datatype Sender = Sender(
    rule: Rule,
    session: Session,
    fanout: Option<Key>,
    directed: map<string, Key>)

  // A receiving TopicFactory with its subscription
  datatype Listener = Listener(session: Session, subscription: string, cfg: TopicConfig)

  datatype RouteError = SourceNotADrone | BadDroneNumber | DuplicateTopic(name: string)

  function SendName(c: Config, rule: Rule): string {
    if DRONE_PREFIX <= rule.name && c.droneId != DRONE_ID_NULL then
      "/drone_" + c.idText(c.droneId) + rule.name[|DRONE_PREFIX|..]
    else rule.name
  }

  function SenderOf(c: Config, rule: Rule): Sender {
    if rule.dynamicDestination then
      Sender(rule, SessionFor(c, rule.rosType), None,
             map d | d in rule.destinations && rule.destinations[d] && d != c.host
               :: Directed(c.host, d, rule.name))
    else
      Sender(rule, SessionFor(c, rule.rosType), Some(Fanout(c.host, rule.name)), map[])
  }

  function ExpandedName(c: Config, rule: Rule, source: string): Result<string, RouteError> {
    if DRONE_PREFIX <= rule.name then
      if !IsDrone(source) then Err(SourceNotADrone)
      else
        var id := if rule.dynamicDestination then Some(c.droneId) else c.parseId(source[|"drone"|..]);
        if id.None? then Err(BadDroneNumber)
        else Ok("/drone_" + c.idText(id.value) + rule.name[|DRONE_PREFIX|..])
    else Ok(rule.name)
  }

  function RecvName(c: Config, rule: Rule, source: string): Result<string, RouteError> {
    var name :- ExpandedName(c, rule, source);
    if rule.hasPrefix && !rule.samePrefix then Ok("/" + source + name)
    else if rule.samePrefix then Ok("/bridge" + name)
    else Ok(name)
  }

  function ListenerOf(c: Config, rule: Rule, source: string): Listener {
    var key := if rule.dynamicDestination then TopicDirectedKey("*", c.host, rule.name)
               else TopicFanoutKey(source, rule.name);
    Listener(SessionFor(c, rule.rosType), key,
             TopicConfig(rule.rosType, c.md5(rule.rosType), rule.cloudCompress, rule.dynamicDestination,
                         source, rule.sources, rule.qos))
  }

  // expandHostSelection gives every rule both maps over exactly the configured hosts.
  ghost predicate WellFormed(c: Config, rule: Rule) {
    && c.host in c.hosts
    && rule.sources.Keys == (set h | h in c.hosts) && rule.destinations.Keys == (set h | h in c.hosts)
  }

  ghost predicate AllWellFormed(c: Config, rules: seq<Rule>) {
    forall i :: 0 <= i < |rules| ==> WellFormed(c, rules[i])
  }

  // ----- Numbers in directed names -----

  // For a directed rule both sides expand "{id}" with the host's own number; they agree exactly
  // when the host has one, because only the sending side asks.
  lemma DirectedExpansion(c: Config, rule: Rule, source: string)
    requires rule.dynamicDestination && DRONE_PREFIX <= rule.name && IsDrone(source)
    requires '{' !in c.idText(c.droneId)
    ensures ExpandedName(c, rule, source) == Ok(SendName(c, rule)) <==> c.droneId != DRONE_ID_NULL
  {
    if c.droneId == DRONE_ID_NULL {
      assert rule.name[|"/drone_"|] == '{';
      NumberNotBrace("/drone_", c.idText(c.droneId), rule.name[|DRONE_PREFIX|..], rule.name);
    }
  }

  lemma NumberNotBrace(head: string, number: string, tail: string, name: string)
    requires '{' !in number && |head| + |tail| < |name| && name[|head|] == '{'
    ensures head + number + tail != name
  {
    if number != "" {
      assert (head + number + tail)[|head|] == number[0];
    }
  }

  // A ground station, which has no number, receiving a directed rule from drone 1
  function GroundStation(): Config {
    Config("ground", DRONE_ID_NULL, ["drone1", "ground"], false, false, false,
           n => if n == DRONE_ID_NULL then "-9999" else "1", _ => Some(1), _ => "")
  }

  function CommandRule(): Rule {
    Rule(DRONE_PREFIX + "/cmd", "pkg/Cmd", Command, false, false, false, true,
         map["drone1" := true, "ground" := false], map["drone1" := false, "ground" := true])
  }

  // It subscribes, and publishes under its null number.
  lemma UnnumberedReceiver()
    ensures WellFormed(GroundStation(), CommandRule())
    ensures Eligible(GroundStation(), CommandRule(), "drone1")
    ensures RecvName(GroundStation(), CommandRule(), "drone1") == Ok("/drone_-9999/cmd")
    ensures SendName(GroundStation(), CommandRule()) == "/drone_{id}/cmd"
  {
    var name := CommandRule().name;
    assert name[|DRONE_PREFIX|..] == "/cmd";
    assert "/drone_" + "-9999" + "/cmd" == "/drone_-9999/cmd";
  }

  // ----- The send table -----

  // A later rule with the same expanded name replaces an earlier one.
  ghost function SendTable(c: Config, rules: seq<Rule>): map<string, Sender>
    requires AllWellFormed(c, rules)
  {
    if rules == [] then map[]
    else
      var rule := Last(rules);
      var before := SendTable(c, DropLast(rules));
      if rule.sources[c.host] then before[SendName(c, rule) := SenderOf(c, rule)] else before
  }

  // ----- The receive table -----

  predicate Eligible(c: Config, rule: Rule, source: string) {
    (source != c.host || c.debug) && source in rule.sources && rule.sources[source]
  }

  function EligibleSources(c: Config, rule: Rule, hosts: seq<string>): seq<string> {
    if hosts == [] then []
    else
      var before := EligibleSources(c, rule, DropLast(hosts));
      if Eligible(c, rule, Last(hosts)) then before + [Last(hosts)] else before
  }

  // A directed rule listens once, whatever the number of sources.
  function Wanted(c: Config, rule: Rule): seq<string> {
    var all := EligibleSources(c, rule, c.hosts);
    if rule.dynamicDestination && all != [] then all[..1] else all
  }

  function AddListener(table: Result<map<string, Listener>, RouteError>, c: Config, rule: Rule, source: string)
    : Result<map<string, Listener>, RouteError>
  {
    var listeners :- table;
    var name :- RecvName(c, rule, source);
    if name in listeners then Err(DuplicateTopic(name))
    else Ok(listeners[name := ListenerOf(c, rule, source)])
  }

  function AddListeners(table: Result<map<string, Listener>, RouteError>, c: Config, rule: Rule, sources: seq<string>)
    : Result<map<string, Listener>, RouteError>
  {
    if sources == [] then table
    else AddListener(AddListeners(table, c, rule, DropLast(sources)), c, rule, Last(sources))
  }

  ghost function RecvTable(c: Config, rules: seq<Rule>): Result<map<string, Listener>, RouteError>
    requires AllWellFormed(c, rules)
  {
    if rules == [] then Ok(map[])
    else
      var rule := Last(rules);
      var before := RecvTable(c, DropLast(rules));
      if rule.destinations[c.host] then AddListeners(before, c, rule, Wanted(c, rule)) else before
  }

  lemma Took<T>(s: seq<T>, i: nat)
    requires i < |s|
    ensures s[..i + 1] != [] && DropLast(s[..i + 1]) == s[..i] && Last(s[..i + 1]) == s[i]
  {
  }

  lemma {:induction false} ErrorStays(e: RouteError, c: Config, rule: Rule, sources: seq<string>)
    ensures AddListeners(Err(e), c, rule, sources) == Err(e)
  {
    if sources != [] {
      ErrorStays(e, c, rule, DropLast(sources));
    }
  }

  lemma {:induction false} AddListenersSplit(table: Result<map<string, Listener>, RouteError>, c: Config, rule: Rule,
                                             a: seq<string>, b: seq<string>)
    ensures AddListeners(table, c, rule, a + b) == AddListeners(AddListeners(table, c, rule, a), c, rule, b)
  {
    if b == [] {
      assert a + b == a;
    } else {
      LastOfAppend(a, b);
      AddListenersSplit(table, c, rule, a, DropLast(b));
    }
  }

  lemma {:induction false} RecvErrorStays(c: Config, rules: seq<Rule>, i: nat)
    requires AllWellFormed(c, rules) && i <= |rules| && RecvTable(c, rules[..i]).Err?
    ensures RecvTable(c, rules) == RecvTable(c, rules[..i])
    decreases |rules| - i
  {
    if i == |rules| {
      assert rules[..i] == rules;
    } else {
      Took(rules, i);
      ErrorStays(RecvTable(c, rules[..i]).error, c, rules[i], Wanted(c, rules[i]));
      RecvErrorStays(c, rules, i + 1);
    }
  }

  lemma {:induction false} EligibleGrow(c: Config, rule: Rule, hosts: seq<string>, j: nat)
    requires j <= |hosts|
    ensures EligibleSources(c, rule, hosts[..j]) <= EligibleSources(c, rule, hosts)
    decreases |hosts| - j
  {
    if j == |hosts| {
      assert hosts[..j] == hosts;
    } else {
      Took(hosts, j);
      EligibleGrow(c, rule, hosts, j + 1);
    }
  }

  lemma NextHost(table: Result<map<string, Listener>, RouteError>, c: Config, rule: Rule, j: nat)
    requires j < |c.hosts|
    ensures var done, next := EligibleSources(c, rule, c.hosts[..j]), EligibleSources(c, rule, c.hosts[..j + 1]);
            next <= EligibleSources(c, rule, c.hosts)
            && if Eligible(c, rule, c.hosts[j]) then
                 && next == done + [c.hosts[j]]
                 && AddListeners(table, c, rule, next)
                    == AddListener(AddListeners(table, c, rule, done), c, rule, c.hosts[j])
               else next == done
  {
    Took(c.hosts, j);
    EligibleGrow(c, rule, c.hosts, j + 1);
    LastOfAppend(EligibleSources(c, rule, c.hosts[..j]), [c.hosts[j]]);
  }

  // The loop may stop at a source that fails, or at the first source of a directed rule.
  lemma LastListener(table: Result<map<string, Listener>, RouteError>, c: Config, rule: Rule,
                     done: seq<string>, source: string)
    requires done + [source] <= EligibleSources(c, rule, c.hosts)
    requires rule.dynamicDestination ==> done == []
    requires rule.dynamicDestination || AddListeners(table, c, rule, done + [source]).Err?
    ensures AddListeners(table, c, rule, Wanted(c, rule)) == AddListeners(table, c, rule, done + [source])
  {
    var all := EligibleSources(c, rule, c.hosts);
    var reached := done + [source];
    if rule.dynamicDestination {
      assert all[..1] == reached;
    } else {
      assert all == reached + all[|reached|..];
      AddListenersSplit(table, c, rule, reached, all[|reached|..]);
      ErrorStays(AddListeners(table, c, rule, reached).error, c, rule, all[|reached|..]);
    }
  }

  function Outcome(error: Option<RouteError>, table: map<string, Listener>): Result<map<string, Listener>, RouteError> {
    if error.Some? then Err(error.value) else Ok(table)
  }

  class BridgeFactory {
    const config: Config
    const rules: seq<Rule>
    var sendTopics: map<string, Sender>
    var recvTopics: map<string, Listener>

    constructor (config: Config, rules: seq<Rule>)
      ensures this.config == config && this.rules == rules
      ensures sendTopics == map[] && recvTopics == map[]
    {
      this.config, this.rules := config, rules;
      sendTopics, recvTopics := map[], map[];
    }

    method BuildSenders()
      requires AllWellFormed(config, rules) && sendTopics == map[]
      modifies this`sendTopics
      ensures sendTopics == SendTable(config, rules)
    {
      for i := 0 to |rules|
        invariant sendTopics == SendTable(config, rules[..i])
      {
        Took(rules, i);
        var rule := rules[i];
        if !rule.sources[config.host] {
          continue;
        }
        sendTopics := sendTopics[SendName(config, rule) := SenderOf(config, rule)];
      }
      assert rules[..|rules|] == rules;
    }

    // One turn of the inner loop that does not skip its source
    method Listen(rule: Rule, source: string) returns (error: Option<RouteError>)
      modifies this`recvTopics
      ensures AddListener(Ok(old(recvTopics)), config, rule, source) == Outcome(error, recvTopics)
    {
      var name := RecvName(config, rule, source);
      if name.Err? {
        return Some(name.error);
      }
      if name.value in recvTopics {
        return Some(DuplicateTopic(name.value));
      }
      recvTopics := recvTopics[name.value := ListenerOf(config, rule, source)];
      error := None;
    }

    method ListenToSources(rule: Rule) returns (error: Option<RouteError>)
      modifies this`recvTopics
      ensures AddListeners(Ok(old(recvTopics)), config, rule, Wanted(config, rule)) == Outcome(error, recvTopics)
    {
      ghost var before := Ok(recvTopics);
      ghost var hosts := config.hosts;
      for j := 0 to |config.hosts|
        invariant AddListeners(before, config, rule, EligibleSources(config, rule, hosts[..j])) == Ok(recvTopics)
        invariant rule.dynamicDestination ==> EligibleSources(config, rule, hosts[..j]) == []
      {
        NextHost(before, config, rule, j);
        var source := config.hosts[j];
        if !Eligible(config, rule, source) {
          continue;
        }
        error := Listen(rule, source);
        if error.Some? || rule.dynamicDestination {
          LastListener(before, config, rule, EligibleSources(config, rule, hosts[..j]), source);
          return;
        }
      }
      assert hosts[..|hosts|] == hosts;
      error := None;
    }

    method TopicOperatorInit() returns (error: Option<RouteError>)
      requires AllWellFormed(config, rules) && sendTopics == map[] && recvTopics == map[]
      modifies this
      ensures sendTopics == SendTable(config, rules)
      ensures RecvTable(config, rules) == Outcome(error, recvTopics)
    {
      BuildSenders();
      for i := 0 to |rules|
        invariant sendTopics == SendTable(config, rules)
        invariant RecvTable(config, rules[..i]) == Ok(recvTopics)
      {
        Took(rules, i);
        if !rules[i].destinations[config.host] {
          continue;
        }
        error := ListenToSources(rules[i]);
        if error.Some? {
          RecvErrorStays(config, rules, i + 1);
          return;
        }
      }
      assert rules[..|rules|] == rules;
      error := None;
    }
  }

  // ----- What is in the tables -----

  ghost predicate Sends(c: Config, rule: Rule) {
    c.host in rule.sources && rule.sources[c.host]
  }

  // No later rule that this host sends expands to the same name.
  ghost predicate LastOfItsName(c: Config, rules: seq<Rule>, i: nat)
    requires i < |rules|
  {
    forall j :: i < j < |rules| && Sends(c, rules[j]) ==> SendName(c, rules[j]) != SendName(c, rules[i])
  }

  // A rule this host sends keeps its publisher exactly when no later one takes its name.
  lemma {:induction false} SenderOfRule(c: Config, rules: seq<Rule>, i: nat)
    requires AllWellFormed(c, rules) && i < |rules| && Sends(c, rules[i])
    requires forall j :: i < j < |rules| ==> rules[j] != rules[i]
    ensures SendName(c, rules[i]) in SendTable(c, rules)
    ensures SendTable(c, rules)[SendName(c, rules[i])] == SenderOf(c, rules[i]) <==> LastOfItsName(c, rules, i)
  {
    if i < |rules| - 1 {
      SenderOfRule(c, DropLast(rules), i);
      OneMoreRule(c, rules, i);
      assert SenderOf(c, Last(rules)).rule != SenderOf(c, rules[i]).rule;
    }
  }

  // Drone 1, and two rules of different names that it sends under one
  function DroneOne(): Config {
    Config("drone1", 1, ["drone1"], false, false, false, _ => "1", _ => Some(1), _ => "")
  }

  function SentRule(name: string): Rule {
    Rule(name, "pkg/Cmd", Command, false, false, false, false, map["drone1" := true], map["drone1" := false])
  }

  // The publisher of the first is lost to the second.
  lemma LostPublisher()
    ensures var c, expanding, plain := DroneOne(), SentRule("/drone_{id}/cmd"), SentRule("/drone_1/cmd");
            && AllWellFormed(c, [expanding, plain]) && expanding.name != plain.name
            && SendName(c, expanding) == SendName(c, plain) == "/drone_1/cmd"
            && SendTable(c, [expanding, plain]) == map["/drone_1/cmd" := SenderOf(c, plain)]
  {
    var c, expanding, plain := DroneOne(), SentRule("/drone_{id}/cmd"), SentRule("/drone_1/cmd");
    assert expanding.name[|DRONE_PREFIX|..] == "/cmd";
    assert plain.name[7] == '1' && DRONE_PREFIX[7] == '{';
    assert (set h | h in c.hosts) == {"drone1"};
    LaterRuleWins(c, expanding, plain);
  }

  lemma LaterRuleWins(c: Config, a: Rule, b: Rule)
    requires WellFormed(c, a) && WellFormed(c, b) && a.sources[c.host] && b.sources[c.host]
    requires SendName(c, a) == SendName(c, b)
    ensures SendTable(c, [a, b]) == map[SendName(c, b) := SenderOf(c, b)]
  {
    assert DropLast([a, b]) == [a] && DropLast([a]) == [];
    assert SendTable(c, []) == map[];
    assert SendTable(c, [a]) == SendTable(c, [])[SendName(c, a) := SenderOf(c, a)];
  }

  lemma OneMoreRule(c: Config, rules: seq<Rule>, i: nat)
    requires i < |rules| - 1
    ensures LastOfItsName(c, rules, i)
       <==> LastOfItsName(c, DropLast(rules), i)
            && (Sends(c, Last(rules)) ==> SendName(c, Last(rules)) != SendName(c, rules[i]))
  {
    var before := DropLast(rules);
    assert forall j :: 0 <= j < |before| ==> before[j] == rules[j];
  }

  ghost predicate Listens(c: Config, rule: Rule, source: string) {
    c.host in rule.destinations && rule.destinations[c.host] && source in Wanted(c, rule)
  }

  // The entry under name n comes from this rule and source.
  ghost predicate ComesFrom(c: Config, rule: Rule, source: string, n: string, entry: Listener) {
    Listens(c, rule, source) && RecvName(c, rule, source) == Ok(n) && entry == ListenerOf(c, rule, source)
  }

  // after is table with the listeners of these sources added under fresh names.
  ghost predicate Extends(table: map<string, Listener>, c: Config, rule: Rule, sources: seq<string>,
                          after: map<string, Listener>) {
    && (forall n <- table :: n in after && after[n] == table[n])
    && (forall s <- sources :: HasListener(after, c, rule, s))
    && (forall n <- after :: n in table || IsListener(after, n, c, rule, sources))
  }

  ghost predicate HasListener(table: map<string, Listener>, c: Config, rule: Rule, source: string) {
    var name := RecvName(c, rule, source);
    name.Ok? && name.value in table && table[name.value] == ListenerOf(c, rule, source)
  }

  ghost predicate IsListener(table: map<string, Listener>, n: string, c: Config, rule: Rule, sources: seq<string>)
    requires n in table
  {
    exists s <- sources :: RecvName(c, rule, s) == Ok(n) && table[n] == ListenerOf(c, rule, s)
  }

  lemma ExtendsNext(table: map<string, Listener>, c: Config, rule: Rule, sources: seq<string>,
                    mid: map<string, Listener>, source: string, name: string)
    requires Extends(table, c, rule, sources, mid) && name !in mid && RecvName(c, rule, source) == Ok(name)
    ensures Extends(table, c, rule, sources + [source], mid[name := ListenerOf(c, rule, source)])
  {
    var after := mid[name := ListenerOf(c, rule, source)];
    var more := sources + [source];
    assert source in more;
    forall s | s in more
      ensures HasListener(after, c, rule, s)
    {
      if s in sources {
        assert HasListener(mid, c, rule, s);
      }
    }
    forall n | n in after
      ensures n in table || IsListener(after, n, c, rule, more)
    {
      if n in mid && n !in table {
        assert IsListener(mid, n, c, rule, sources);
      }
    }
  }

  lemma {:induction false} AddedEntries(table: map<string, Listener>, c: Config, rule: Rule, sources: seq<string>)
    requires AddListeners(Ok(table), c, rule, sources).Ok?
    ensures Extends(table, c, rule, sources, AddListeners(Ok(table), c, rule, sources).value)
  {
    if sources != [] {
      var mid := AddListeners(Ok(table), c, rule, DropLast(sources));
      if mid.Ok? {
        AddedEntries(table, c, rule, DropLast(sources));
        Rejoin(sources);
        ExtendsNext(table, c, rule, DropLast(sources), mid.value, Last(sources),
                    RecvName(c, rule, Last(sources)).value);
      }
    }
  }

  lemma {:induction false} EntryOrigin(c: Config, rules: seq<Rule>, table: map<string, Listener>, n: string)
    returns (i: nat, source: string)
    requires AllWellFormed(c, rules) && RecvTable(c, rules) == Ok(table) && n in table
    ensures i < |rules| && ComesFrom(c, rules[i], source, n, table[n])
  {
    var rule := Last(rules);
    var before := RecvTable(c, DropLast(rules));
    if rule.destinations[c.host] {
      if before.Err? {
        ErrorStays(before.error, c, rule, Wanted(c, rule));
      }
      AddedEntries(before.value, c, rule, Wanted(c, rule));
      if n in before.value {
        i, source := EntryOrigin(c, DropLast(rules), before.value, n);
      } else {
        assert IsListener(table, n, c, rule, Wanted(c, rule));
        source :| source in Wanted(c, rule) && RecvName(c, rule, source) == Ok(n)
                  && table[n] == ListenerOf(c, rule, source);
        i := |rules| - 1;
      }
    } else {
      i, source := EntryOrigin(c, DropLast(rules), table, n);
    }
  }

  lemma {:induction false} EntryExists(c: Config, rules: seq<Rule>, table: map<string, Listener>,
                                       i: nat, source: string)
    requires AllWellFormed(c, rules) && RecvTable(c, rules) == Ok(table)
    requires i < |rules| && Listens(c, rules[i], source)
    ensures RecvName(c, rules[i], source).Ok? && RecvName(c, rules[i], source).value in table
    ensures table[RecvName(c, rules[i], source).value] == ListenerOf(c, rules[i], source)
  {
    var rule := Last(rules);
    var before := RecvTable(c, DropLast(rules));
    if rule.destinations[c.host] {
      if before.Err? {
        ErrorStays(before.error, c, rule, Wanted(c, rule));
      }
      AddedEntries(before.value, c, rule, Wanted(c, rule));
      if i < |rules| - 1 {
        EntryExists(c, DropLast(rules), before.value, i, source);
      } else {
        assert HasListener(table, c, rule, source);
      }
    } else {
      EntryExists(c, DropLast(rules), table, i, source);
    }
  }

  // ----- Names and listeners written out -----

  // What stands before the topic name at a receiver
  function Lead(rule: Rule, source: string): string {
    if rule.samePrefix then "/bridge" else if rule.hasPrefix then "/" + source else ""
  }

  lemma PlainNameWritten(c: Config, rule: Rule, source: string)
    requires !("/drone_{id}" <= rule.name)
    ensures RecvName(c, rule, source) == Ok(Lead(rule, source) + rule.name) && SendName(c, rule) == rule.name
  {
    assert "" + rule.name == rule.name;
  }

  // A fanout rule expands "{id}" with the number in the source's name, a directed rule with the
  // receiver's own.
  lemma NumberedNameWritten(c: Config, rule: Rule, suffix: string, number: string)
    requires rule.name == "/drone_{id}" + suffix
    ensures var id := if rule.dynamicDestination then Some(c.droneId) else c.parseId(number);
            RecvName(c, rule, "drone" + number)
            == if id.None? then Err(BadDroneNumber)
               else Ok(Lead(rule, "drone" + number) + ("/drone_" + c.idText(id.value) + suffix))
    ensures SendName(c, rule) == if c.droneId == -9999 then rule.name else "/drone_" + c.idText(c.droneId) + suffix
  {
    var source := "drone" + number;
    assert source[|"drone"|..] == number && rule.name[|DRONE_PREFIX|..] == suffix;
    assert IsDrone(source) && DRONE_PREFIX <= rule.name;
    var id := if rule.dynamicDestination then Some(c.droneId) else c.parseId(number);
    if id.Some? {
      var name := "/drone_" + c.idText(id.value) + suffix;
      assert ExpandedName(c, rule, source) == Ok(name);
      assert "" + name == name;
    }
  }

  lemma OtherSourceRefused(c: Config, rule: Rule, source: string)
    requires "/drone_{id}" <= rule.name && !("drone" <= source)
    ensures RecvName(c, rule, source) == Err(SourceNotADrone)
  {
  }

  // Without a prefix, R receives under the name S sends exactly when the number in S's host name
  // and S's own number have the same text.
  lemma SameNameBothEnds(s: Config, r: Config, rule: Rule, suffix: string, number: string, n: int)
    requires rule.name == "/drone_{id}" + suffix && !rule.dynamicDestination && !rule.hasPrefix && !rule.samePrefix
    requires s.host == "drone" + number && r.parseId(number) == Some(n) && s.droneId != DRONE_ID_NULL
    ensures RecvName(r, rule, s.host) == Ok(SendName(s, rule)) <==> r.idText(n) == s.idText(s.droneId)
  {
    NumberedNameWritten(r, rule, suffix, number);
    NumberedNameWritten(s, rule, suffix, number);
    var a, b := r.idText(n), s.idText(s.droneId);
    assert "" + ("/drone_" + a + suffix) == "/drone_" + a + suffix;
    if "/drone_" + a + suffix == "/drone_" + b + suffix {
      assert |a| == |b|;
      SplitEqual("/drone_" + a, suffix, "/drone_" + b, suffix);
      SplitEqual("/drone_", a, "/drone_", b);
    }
  }

  lemma SessionsByType(c: Config, rosType: string)
    ensures SessionFor(c, rosType) == ImageSession <==> c.imageSession && rosType == "sensor_msgs/Image"
    ensures SessionFor(c, rosType) == CloudSession <==> c.cloudSession && rosType == "sensor_msgs/PointCloud2"
  {
    assert |"sensor_msgs/Image"| != |"sensor_msgs/PointCloud2"|;
  }

  // The listener a host makes for a fanout rule it receives, for every source but itself
  // (itself too in debug mode)
  lemma FanoutListenerWritten(c: Config, rules: seq<Rule>, table: map<string, Listener>, i: nat, source: string)
    requires AllWellFormed(c, rules) && RecvTable(c, rules) == Ok(table) && i < |rules|
    requires !rules[i].dynamicDestination && rules[i].destinations[c.host]
    requires source in c.hosts && rules[i].sources[source] && (source != c.host || c.debug)
    ensures var name := RecvName(c, rules[i], source);
            && name.Ok? && name.value in table
            && var l := table[name.value];
               && l.session == SessionFor(c, rules[i].rosType)
               && l.subscription
                  == "netbridge/v1/topic/" + (source + ("/fanout/" + Normalize(rules[i].name)))
               && l.cfg == TopicConfig(rules[i].rosType, c.md5(rules[i].rosType), rules[i].cloudCompress, false,
                                       source, rules[i].sources, rules[i].qos)
  {
    EligibleMembers(c, rules[i], c.hosts, source);
    EntryExists(c, rules, table, i, source);
    KeyTexts(source, "", rules[i].name);
  }

  // A directed rule listens once, under any source, to what is sent to this host.
  lemma DirectedListenerWritten(c: Config, rules: seq<Rule>, table: map<string, Listener>, i: nat)
    requires AllWellFormed(c, rules) && RecvTable(c, rules) == Ok(table) && i < |rules|
    requires rules[i].dynamicDestination && rules[i].destinations[c.host] && Wanted(c, rules[i]) != []
    ensures var source := Wanted(c, rules[i])[0];
            var name := RecvName(c, rules[i], source);
            && name.Ok? && name.value in table
            && var l := table[name.value];
               && l.session == SessionFor(c, rules[i].rosType)
               && l.subscription
                  == "netbridge/v1/topic/" + ("*" + ("/dst/" + (c.host + ("/" + Normalize(rules[i].name)))))
               && l.cfg == TopicConfig(rules[i].rosType, c.md5(rules[i].rosType), rules[i].cloudCompress, true,
                                       source, rules[i].sources, rules[i].qos)
  {
    var source := Wanted(c, rules[i])[0];
    assert source in Wanted(c, rules[i]);
    EntryExists(c, rules, table, i, source);
    KeyTexts("*", c.host, rules[i].name);
  }

  // What a host publishes under a rule: one fanout key, or one key for each other destination
  lemma SenderWritten(c: Config, rule: Rule)
    ensures var sender := SenderOf(c, rule);
            && sender.session == SessionFor(c, rule.rosType)
            && (!rule.dynamicDestination ==>
                  && sender.directed == map[] && sender.fanout.Some?
                  && KeyText(sender.fanout.value)
                     == "netbridge/v1/topic/" + (c.host + ("/fanout/" + Normalize(rule.name))))
            && (rule.dynamicDestination ==>
                  && sender.fanout.None?
                  && (forall d :: d in sender.directed <==>
                        d in rule.destinations && rule.destinations[d] && d != c.host)
                  && forall d :: d in sender.directed ==>
                       KeyText(sender.directed[d])
                       == "netbridge/v1/topic/" + (c.host + ("/dst/" + (d + ("/" + Normalize(rule.name))))))
  {
    KeyTexts(c.host, "", rule.name);
    forall d
      ensures KeyText(Directed(c.host, d, rule.name))
           == "netbridge/v1/topic/" + (c.host + ("/dst/" + (d + ("/" + Normalize(rule.name)))))
    {
      KeyTexts(c.host, d, rule.name);
    }
  }

  // So a fanout "{id}" rule from drone number t arrives under t's number.
  lemma NumberedFanoutEntry(c: Config, rules: seq<Rule>, table: map<string, Listener>, i: nat,
                            suffix: string, number: string, n: int)
    requires AllWellFormed(c, rules) && RecvTable(c, rules) == Ok(table) && i < |rules|
    requires !rules[i].dynamicDestination && rules[i].destinations[c.host]
    requires rules[i].name == "/drone_{id}" + suffix && c.parseId(number) == Some(n)
    requires var source := "drone" + number;
             source in c.hosts && rules[i].sources[source] && (source != c.host || c.debug)
    ensures Lead(rules[i], "drone" + number) + ("/drone_" + c.idText(n) + suffix) in table
  {
    FanoutListenerWritten(c, rules, table, i, "drone" + number);
    NumberedNameWritten(c, rules[i], suffix, number);
  }

  // ----- When a bridge starts -----

  function NamesFrom(c: Config, rule: Rule, sources: seq<string>): seq<Result<string, RouteError>> {
    if sources == [] then []
    else NamesFrom(c, rule, DropLast(sources)) + [RecvName(c, rule, Last(sources))]
  }

  // The names of all the receiving topics a host wants, in the order it makes them
  ghost function AllNames(c: Config, rules: seq<Rule>): seq<Result<string, RouteError>>
    requires AllWellFormed(c, rules)
  {
    if rules == [] then []
    else
      var rule := Last(rules);
      AllNames(c, DropLast(rules)) + (if rule.destinations[c.host] then NamesFrom(c, rule, Wanted(c, rule)) else [])
  }

  ghost predicate Usable(names: seq<Result<string, RouteError>>) {
    && (forall i :: 0 <= i < |names| ==> names[i].Ok?)
    && (forall i, j :: 0 <= i < j < |names| ==> names[i] != names[j])
  }

  lemma UsableSnoc(names: seq<Result<string, RouteError>>, name: Result<string, RouteError>)
    ensures Usable(names + [name]) <==> Usable(names) && name.Ok? && name !in names
  {
    var more := names + [name];
    assert forall i :: 0 <= i < |names| ==> more[i] == names[i];
    assert more[|names|] == name;
    if Usable(more) {
      assert forall i :: 0 <= i < |names| ==> more[i] != more[|names|];
    }
  }

  // The table holds exactly these names, or they were not usable.
  ghost predicate Describes(names: seq<Result<string, RouteError>>, table: Result<map<string, Listener>, RouteError>) {
    && (table.Ok? <==> Usable(names))
    && (table.Ok? ==> forall n :: n in table.value <==> Ok(n) in names)
  }

  lemma AddDescribes(names: seq<Result<string, RouteError>>, table: Result<map<string, Listener>, RouteError>,
                     c: Config, rule: Rule, source: string)
    requires Describes(names, table)
    ensures Describes(names + [RecvName(c, rule, source)], AddListener(table, c, rule, source))
  {
    UsableSnoc(names, RecvName(c, rule, source));
  }

  lemma {:induction false} AddAllDescribes(names: seq<Result<string, RouteError>>,
                                           table: Result<map<string, Listener>, RouteError>,
                                           c: Config, rule: Rule, sources: seq<string>)
    requires Describes(names, table)
    ensures Describes(names + NamesFrom(c, rule, sources), AddListeners(table, c, rule, sources))
  {
    if sources == [] {
      assert names + [] == names;
    } else {
      var before := NamesFrom(c, rule, DropLast(sources));
      AddAllDescribes(names, table, c, rule, DropLast(sources));
      AddDescribes(names + before, AddListeners(table, c, rule, DropLast(sources)), c, rule, Last(sources));
      Assoc(names, before, [RecvName(c, rule, Last(sources))]);
    }
  }

  // A host builds its receivers exactly when every wanted topic name expands and no two are
  // the same; then it receives under exactly those names.
  lemma {:induction false} StartsExactlyWhen(c: Config, rules: seq<Rule>)
    requires AllWellFormed(c, rules)
    ensures RecvTable(c, rules).Ok? <==> Usable(AllNames(c, rules))
    ensures RecvTable(c, rules).Ok? ==> forall n :: n in RecvTable(c, rules).value <==> Ok(n) in AllNames(c, rules)
  {
    if rules != [] {
      var rule := Last(rules);
      StartsExactlyWhen(c, DropLast(rules));
      var before := AllNames(c, DropLast(rules));
      if rule.destinations[c.host] {
        AddAllDescribes(before, RecvTable(c, DropLast(rules)), c, rule, Wanted(c, rule));
      } else {
        assert before + [] == before;
      }
    }
  }

  lemma UsableParts(a: seq<Result<string, RouteError>>, b: seq<Result<string, RouteError>>)
    requires Usable(a + b)
    ensures Usable(a) && Usable(b)
  {
    assert forall i :: 0 <= i < |a| ==> (a + b)[i] == a[i];
    assert forall i :: 0 <= i < |b| ==> (a + b)[|a| + i] == b[i];
  }

  lemma {:induction false} RuleNamesUsable(c: Config, rules: seq<Rule>, i: nat)
    requires AllWellFormed(c, rules) && i < |rules| && rules[i].destinations[c.host]
    requires Usable(AllNames(c, rules))
    ensures Usable(NamesFrom(c, rules[i], Wanted(c, rules[i])))
  {
    var rule := Last(rules);
    var last := if rule.destinations[c.host] then NamesFrom(c, rule, Wanted(c, rule)) else [];
    UsableParts(AllNames(c, DropLast(rules)), last);
    if i < |rules| - 1 {
      RuleNamesUsable(c, DropLast(rules), i);
    }
  }

  lemma {:induction false} SharedName(c: Config, rule: Rule, sources: seq<string>)
    requires rule.samePrefix && !(DRONE_PREFIX <= rule.name)
    ensures |NamesFrom(c, rule, sources)| == |sources|
    ensures forall k :: 0 <= k < |sources| ==> NamesFrom(c, rule, sources)[k] == Ok("/bridge" + rule.name)
  {
    if sources != [] {
      SharedName(c, rule, DropLast(sources));
    }
  }

  // The shared "/bridge" prefix is fatal to a fanout rule with several sources.
  lemma SamePrefixClash(c: Config, rules: seq<Rule>, i: nat)
    requires AllWellFormed(c, rules) && i < |rules| && rules[i].destinations[c.host]
    requires rules[i].samePrefix && !(DRONE_PREFIX <= rules[i].name) && !rules[i].dynamicDestination
    requires |EligibleSources(c, rules[i], c.hosts)| >= 2
    ensures RecvTable(c, rules).Err?
  {
    var names := NamesFrom(c, rules[i], Wanted(c, rules[i]));
    SharedName(c, rules[i], Wanted(c, rules[i]));
    assert names[0] == names[1];
    StartsExactlyWhen(c, rules);
    if Usable(AllNames(c, rules)) {
      RuleNamesUsable(c, rules, i);
    }
  }

  lemma ShorterHead(a: string, x: string, b: string, y: string)
    requires SlashFree(b) && |a| <= |b| && x != "" && x[0] == '/' && a + x == b + y
    ensures a == b
  {
    assert (a + x)[|a|] == '/';
    assert forall k :: 0 <= k < |b| ==> (b + y)[k] in b;
    SplitEqual(a, x, b, y);
  }

  lemma HeadsEqual(a: string, x: string, b: string, y: string)
    requires SlashFree(a) && SlashFree(b) && x != "" && x[0] == '/' && y != "" && y[0] == '/'
    requires "/" + a + x == "/" + b + y
    ensures a == b
  {
    Assoc("/", a, x);
    Assoc("/", b, y);
    SplitEqual("/", a + x, "/", b + y);
    if |a| <= |b| {
      ShorterHead(a, x, b, y);
    } else {
      ShorterHead(b, y, a, x);
    }
  }

  // The source prefix keeps the topics of different sources apart.
  lemma PrefixSeparates(c: Config, rule: Rule, other: Rule, a: string, b: string)
    requires rule.hasPrefix && !rule.samePrefix && other.hasPrefix && !other.samePrefix
    requires rule.name != "" && rule.name[0] == '/' && other.name != "" && other.name[0] == '/'
    requires SlashFree(a) && SlashFree(b) && a != b
    ensures RecvName(c, rule, a).Ok? && RecvName(c, other, b).Ok? ==> RecvName(c, rule, a) != RecvName(c, other, b)
  {
    var x, y := ExpandedName(c, rule, a), ExpandedName(c, other, b);
    if x.Ok? && y.Ok? && "/" + a + x.value == "/" + b + y.value {
      HeadsEqual(a, x.value, b, y.value);
    }
  }

  // ----- Who hears what -----

  ghost predicate PlainNames(hosts: seq<string>, rules: seq<Rule>) {
    && (forall h <- hosts :: SlashFree(h) && StarFree(h))
    && (forall i :: 0 <= i < |rules| ==> StarFree(rules[i].name))
  }

  ghost predicate DistinctNames(rules: seq<Rule>) {
    forall i, j :: 0 <= i < j < |rules| ==> Normalize(rules[i].name) != Normalize(rules[j].name)
  }

  // Two hosts of one system: the same hosts, sessions and message definitions
  ghost predicate SameSystem(s: Config, r: Config) {
    && s.hosts == r.hosts && s.imageSession == r.imageSession && s.cloudSession == r.cloudSession
    && forall t :: s.md5(t) == r.md5(t)
  }

  function SentKind(rule: Rule): PayloadKind {
    if rule.rosType == "sensor_msgs/Image" then Jpeg
    else if rule.rosType == "sensor_msgs/PointCloud2" then
      if rule.cloudCompress then PointCloudCompressed else RosSerialized
    else RosSerialized
  }

  // An envelope that subCallback fills in under a rule
  ghost predicate SentUnder(s: Config, rule: Rule, e: Envelope) {
    && e.version == PROTOCOL_VERSION && e.kind == SentKind(rule) && e.sourceHost == s.host
    && e.rosType == rule.rosType && e.rosMd5 == s.md5(rule.rosType)
  }

  // The listener is on the session, subscribed to the key, and passes the envelope's checks.
  ghost predicate Heard(l: Listener, session: Session, key: Key, e: Envelope) {
    l.session == session && Matches(l.subscription, KeyText(key)) && Admits(l.cfg, e)
  }

  ghost function HeardBy(table: map<string, Listener>, session: Session, key: Key, e: Envelope): set<string> {
    set n | n in table && Heard(table[n], session, key, e)
  }

  lemma {:induction false} EligibleMembers(c: Config, rule: Rule, hosts: seq<string>, h: string)
    ensures h in EligibleSources(c, rule, hosts) <==> h in hosts && Eligible(c, rule, h)
  {
    if hosts != [] {
      EligibleMembers(c, rule, DropLast(hosts), h);
      Rejoin(hosts);
    }
  }

  lemma FanoutListener(s: Config, r: Config, rule: Rule, other: Rule, source: string, e: Envelope)
    requires SlashFree(s.host) && SlashFree(source) && SlashFree(r.host)
    requires StarFree(source) && StarFree(r.host) && StarFree(other.name)
    requires Heard(ListenerOf(r, other, source), SessionFor(s, rule.rosType), Fanout(s.host, rule.name), e)
    ensures !other.dynamicDestination && source == s.host && Normalize(other.name) == Normalize(rule.name)
  {
    if other.dynamicDestination {
      AnySourceSubscription(r.host, other.name, Fanout(s.host, rule.name));
    } else {
      PlainSubscription(Fanout(source, other.name), Fanout(s.host, rule.name));
    }
  }

  lemma FanoutHeardByItsOwn(s: Config, r: Config, rule: Rule, e: Envelope)
    requires SameSystem(s, r) && SentUnder(s, rule, e) && Sends(s, rule) && !rule.dynamicDestination
    requires SlashFree(s.host) && StarFree(s.host) && StarFree(rule.name)
    ensures Heard(ListenerOf(r, rule, s.host), SessionFor(s, rule.rosType), Fanout(s.host, rule.name), e)
  {
    PlainSubscription(Fanout(s.host, rule.name), Fanout(s.host, rule.name));
  }

  ghost predicate Routed(s: Config, r: Config, rules: seq<Rule>, table: map<string, Listener>) {
    && SameSystem(s, r) && AllWellFormed(s, rules) && AllWellFormed(r, rules)
    && s.host in s.hosts && r.host in s.hosts
    && PlainNames(s.hosts, rules) && DistinctNames(rules)
    && RecvTable(r, rules) == Ok(table)
  }

  lemma FanoutEntry(s: Config, r: Config, rules: seq<Rule>, i: nat, table: map<string, Listener>,
                    e: Envelope, n: string)
    requires Routed(s, r, rules, table) && i < |rules| && n in table
    requires Heard(table[n], SessionFor(s, rules[i].rosType), Fanout(s.host, rules[i].name), e)
    ensures Listens(r, rules[i], s.host) && Eligible(r, rules[i], s.host) && RecvName(r, rules[i], s.host) == Ok(n)
  {
    var j, source := EntryOrigin(r, rules, table, n);
    WantedEligible(r, rules[j], source);
    FanoutListener(s, r, rules[i], rules[j], source, e);
    assert j == i;
  }

  lemma WantedEligible(c: Config, rule: Rule, source: string)
    requires source in Wanted(c, rule)
    ensures source in c.hosts && Eligible(c, rule, source)
  {
    EligibleMembers(c, rule, c.hosts, source);
  }

  // What S publishes under a fanout rule is heard at R by exactly one listener when S is a
  // source, R a destination, and R is not S or runs in debug mode; otherwise by none.
  lemma FanoutReach(s: Config, r: Config, rules: seq<Rule>, i: nat, table: map<string, Listener>, e: Envelope)
    requires Routed(s, r, rules, table) && i < |rules|
    requires !rules[i].dynamicDestination && SentUnder(s, rules[i], e)
    ensures var heard := HeardBy(table, SessionFor(s, rules[i].rosType), Fanout(s.host, rules[i].name), e);
            if rules[i].sources[s.host] && rules[i].destinations[r.host] && (r.host != s.host || r.debug) then
              exists n :: RecvName(r, rules[i], s.host) == Ok(n) && heard == {n}
            else heard == {}
  {
    var rule := rules[i];
    var heard := HeardBy(table, SessionFor(s, rule.rosType), Fanout(s.host, rule.name), e);
    forall n | n in heard
      ensures Listens(r, rule, s.host) && Eligible(r, rule, s.host) && RecvName(r, rule, s.host) == Ok(n)
    {
      FanoutEntry(s, r, rules, i, table, e, n);
    }
    EligibleMembers(r, rule, r.hosts, s.host);
    if Listens(r, rule, s.host) && Eligible(r, rule, s.host) {
      EntryExists(r, rules, table, i, s.host);
      FanoutHeardByItsOwn(s, r, rule, e);
      var name := RecvName(r, rule, s.host).value;
      assert heard == {name} by {
        assert name in heard;
      }
    }
  }

  // End to end: the publisher a sending host keeps for a fanout rule is heard at R by exactly
  // the receiver the rules give R for that host.
  lemma FanoutDelivery(s: Config, r: Config, rules: seq<Rule>, i: nat, table: map<string, Listener>, e: Envelope)
    requires Routed(s, r, rules, table) && i < |rules|
    requires !rules[i].dynamicDestination && SentUnder(s, rules[i], e)
    requires Sends(s, rules[i]) && LastOfItsName(s, rules, i)
    ensures SendName(s, rules[i]) in SendTable(s, rules)
    ensures var sender := SendTable(s, rules)[SendName(s, rules[i])];
            && sender.fanout.Some?
            && |HeardBy(table, sender.session, sender.fanout.value, e)|
               == if rules[i].destinations[r.host] && (r.host != s.host || r.debug) then 1 else 0
  {
    RulesDiffer(rules, i);
    SenderOfRule(s, rules, i);
    FanoutReach(s, r, rules, i, table, e);
  }

  // ----- Directed rules -----

  lemma DirectedListener(s: Config, r: Config, rule: Rule, d: string, other: Rule, source: string, e: Envelope)
    requires SlashFree(s.host) && SlashFree(d) && SlashFree(source) && SlashFree(r.host)
    requires StarFree(source) && StarFree(r.host) && StarFree(other.name) && e.sourceHost == s.host
    requires Heard(ListenerOf(r, other, source), SessionFor(s, rule.rosType), Directed(s.host, d, rule.name), e)
    ensures other.dynamicDestination && d == r.host && Normalize(other.name) == Normalize(rule.name)
    ensures Sends(s, other)
  {
    if other.dynamicDestination {
      AnySourceSubscription(r.host, other.name, Directed(s.host, d, rule.name));
    } else {
      PlainSubscription(Fanout(source, other.name), Directed(s.host, d, rule.name));
    }
  }

  lemma DirectedHeardByItsOwn(s: Config, r: Config, rule: Rule, source: string, e: Envelope)
    requires SameSystem(s, r) && SentUnder(s, rule, e) && Sends(s, rule) && rule.dynamicDestination
    requires SlashFree(s.host) && SlashFree(r.host) && StarFree(r.host) && StarFree(rule.name)
    ensures Heard(ListenerOf(r, rule, source), SessionFor(s, rule.rosType), Directed(s.host, r.host, rule.name), e)
  {
    AnySourceSubscription(r.host, rule.name, Directed(s.host, r.host, rule.name));
  }

  lemma DirectedEntry(s: Config, r: Config, rules: seq<Rule>, i: nat, d: string, table: map<string, Listener>,
                      e: Envelope, n: string)
    requires Routed(s, r, rules, table) && i < |rules| && n in table && d in s.hosts && e.sourceHost == s.host
    requires Heard(table[n], SessionFor(s, rules[i].rosType), Directed(s.host, d, rules[i].name), e)
    ensures d == r.host && Sends(s, rules[i]) && Wanted(r, rules[i]) != []
    ensures Listens(r, rules[i], Wanted(r, rules[i])[0]) && RecvName(r, rules[i], Wanted(r, rules[i])[0]) == Ok(n)
  {
    var j, source := EntryOrigin(r, rules, table, n);
    WantedEligible(r, rules[j], source);
    DirectedListener(s, r, rules[i], d, rules[j], source, e);
    assert j == i;
  }

  // An envelope addressed to drone d is heard at d by exactly one listener, and elsewhere by none.
  lemma DirectedReach(s: Config, r: Config, rules: seq<Rule>, i: nat, d: string,
                      table: map<string, Listener>, e: Envelope)
    requires Routed(s, r, rules, table) && i < |rules|
    requires rules[i].dynamicDestination && SentUnder(s, rules[i], e)
    requires d in SenderOf(s, rules[i]).directed
    ensures |HeardBy(table, SessionFor(s, rules[i].rosType), SenderOf(s, rules[i]).directed[d], e)|
         == if rules[i].sources[s.host] && d == r.host then 1 else 0
  {
    var rule := rules[i];
    var heard := HeardBy(table, SessionFor(s, rule.rosType), Directed(s.host, d, rule.name), e);
    forall n | n in heard
      ensures d == r.host && Sends(s, rule) && Wanted(r, rule) != []
      ensures RecvName(r, rule, Wanted(r, rule)[0]) == Ok(n)
    {
      DirectedEntry(s, r, rules, i, d, table, e, n);
    }
    if rule.sources[s.host] && d == r.host {
      EligibleMembers(r, rule, r.hosts, s.host);
      var source := Wanted(r, rule)[0];
      EntryExists(r, rules, table, i, source);
      DirectedHeardByItsOwn(s, r, rule, source, e);
      var name := RecvName(r, rule, source).value;
      assert heard == {name} by {
        assert name in heard;
      }
    } else {
      assert heard == {};
    }
  }

  function Target(c: Config, id: int): string {
    "drone" + c.idText(id)
  }

  // The keys one message goes out under. accepts says which destinations' publishers succeed.
  function PublishedKeys(c: Config, sender: Sender, accepts: string -> bool, ids: seq<int>): seq<Key> {
    if ids == [] then []
    else
      var before := PublishedKeys(c, sender, accepts, DropLast(ids));
      var target := Target(c, Last(ids));
      if target in sender.directed && accepts(target) then before + [sender.directed[target]] else before
  }

  // The directed fan-out of subCallback: each listed drone is either sent to or counted dropped.
  method PublishToDrones(c: Config, sender: Sender, accepts: string -> bool, ids: seq<int>)
    returns (published: seq<Key>, drops: nat)
    ensures published == PublishedKeys(c, sender, accepts, ids)
    ensures |published| + drops == |ids|
  {
    published, drops := [], 0;
    for i := 0 to |ids|
      invariant published == PublishedKeys(c, sender, accepts, ids[..i])
      invariant |published| + drops == i
    {
      Took(ids, i);
      var target := Target(c, ids[i]);
      if target !in sender.directed {
        drops := drops + 1;
        continue;
      }
      if accepts(target) {
        published := published + [sender.directed[target]];
      } else {
        drops := drops + 1;
      }
    }
    assert ids[..|ids|] == ids;
  }

  function Occurrences(c: Config, ids: seq<int>, host: string): nat {
    if ids == [] then 0
    else Occurrences(c, DropLast(ids), host) + (if "drone" + c.idText(Last(ids)) == host then 1 else 0)
  }

  ghost function CopiesHeard(table: map<string, Listener>, session: Session, keys: seq<Key>, e: Envelope): nat {
    if keys == [] then 0
    else CopiesHeard(table, session, DropLast(keys), e) + |HeardBy(table, session, Last(keys), e)|
  }

  // Host R gets as many copies of a directed message as its number is listed, provided S is a
  // source, R a destination other than S, and S's publisher for R succeeds; otherwise none.
  lemma {:induction false} DirectedCopies(s: Config, r: Config, rules: seq<Rule>, i: nat, accepts: string -> bool,
                                          ids: seq<int>, table: map<string, Listener>, e: Envelope)
    requires Routed(s, r, rules, table) && i < |rules|
    requires rules[i].dynamicDestination && SentUnder(s, rules[i], e)
    ensures CopiesHeard(table, SessionFor(s, rules[i].rosType),
                        PublishedKeys(s, SenderOf(s, rules[i]), accepts, ids), e)
         == if rules[i].sources[s.host] && rules[i].destinations[r.host] && r.host != s.host && accepts(r.host)
            then Occurrences(s, ids, r.host) else 0
  {
    if ids != [] {
      DirectedCopies(s, r, rules, i, accepts, DropLast(ids), table, e);
      var sender, target := SenderOf(s, rules[i]), Target(s, Last(ids));
      if target in sender.directed && accepts(target) {
        DirectedReach(s, r, rules, i, target, table, e);
        var before := PublishedKeys(s, sender, accepts, DropLast(ids));
        LastOfAppend(before, [sender.directed[target]]);
        assert before + DropLast([sender.directed[target]]) == before;
      }
    }
  }

  // End to end: the directed publishers a sending host keeps reach R as often as R's number is
  // listed, provided R is a destination other than the sender and its publisher succeeds.
  lemma DirectedDelivery(s: Config, r: Config, rules: seq<Rule>, i: nat, accepts: string -> bool,
                         ids: seq<int>, table: map<string, Listener>, e: Envelope)
    requires Routed(s, r, rules, table) && i < |rules|
    requires rules[i].dynamicDestination && SentUnder(s, rules[i], e)
    requires Sends(s, rules[i]) && LastOfItsName(s, rules, i)
    ensures SendName(s, rules[i]) in SendTable(s, rules)
    ensures var sender := SendTable(s, rules)[SendName(s, rules[i])];
            CopiesHeard(table, sender.session, PublishedKeys(s, sender, accepts, ids), e)
            == if rules[i].destinations[r.host] && r.host != s.host && accepts(r.host)
               then Occurrences(s, ids, r.host) else 0
  {
    RulesDiffer(rules, i);
    SenderOfRule(s, rules, i);
    DirectedCopies(s, r, rules, i, accepts, ids, table, e);
  }

  lemma RulesDiffer(rules: seq<Rule>, i: nat)
    requires DistinctNames(rules) && i < |rules|
    ensures forall j :: i < j < |rules| ==> rules[j] != rules[i]
  {
    forall j | i < j < |rules|
      ensures rules[j] != rules[i]
    {
      assert Normalize(rules[i].name) != Normalize(rules[j].name);
    }
  }
}
