/**
 * The code generator's front (generate/src/lib.rs): `Builder::generate`,
 * which checks the protocol name and assembles the protocol the template
 * renders from the parsed tree, with `generate_roles`, `generate_nodes`,
 * `generate_label` and `generate_labels`. The case conversions of the
 * `heck` crate are parameters, and the walk that gives each role's
 * definitions is the corrected one of `CachedDefinitions`.
 */
module Protocol {
  import opened Wrappers
  import opened GenGraph
  import opened Template
  import Definitions
  import opened CachedDefinitions

  /** `Role` as the template takes it: the role's names, its node names, the other roles and its definitions. */
  datatype RoleCode = RoleCode(camel: string, snake: string, nodes: seq<string>, routes: seq<nat>, definitions: seq<Def>)

  /** `Label` as the template takes it: its name and its parameters' names and types. */
  datatype LabelCode = LabelCode(camel: string, paramNames: seq<string>, parameters: seq<string>)

  /** `Protocol`: what the template renders. */
  datatype ProtocolCode = ProtocolCode(camel: string, roles: seq<RoleCode>, labels: seq<LabelCode>)

  /** How `Builder::generate` ends: with the protocol, with an error, or with a panic. */
  datatype Outcome = Generated(protocol: ProtocolCode) | Failed(message: string) | Crashed

  const NameNotSet := "protocol name was not set in builder"

  /** `(0..n).filter(|&j| j != i)`: the routes of role `i` among `n` roles. */
  function Routes(n: nat, i: nat): (r: seq<nat>)
    ensures forall j: nat :: j in r <==> j < n && j != i
    ensures forall a, b :: 0 <= a < b < |r| ==> r[a] < r[b]
    ensures |r| == if i < n then n - 1 else n
  {
    if n == 0 then []
    else
      var rest := Routes(n - 1, i);
      var r := rest + if n - 1 != i then [n - 1] else [];
      assert forall a :: 0 <= a < |rest| ==> rest[a] in rest;
      assert forall a :: 0 <= a < |rest| ==> rest[a] < n - 1;
      r
  }

  /** `generate_nodes`: each node's name, converted, in node order. */
  function GenerateNodes(g: Graph, camel: string -> string): (names: seq<string>)
    ensures |names| == |g.nodes|
  {
    seq(|g.nodes|, k requires 0 <= k < |g.nodes| => camel(g.nodes[k].name))
  }

  /** The parameters' names and types, each in order. */
  function Unzip(parameters: seq<(string, string)>): (r: (seq<string>, seq<string>))
    ensures |r.0| == |parameters| && |r.1| == |parameters|
  {
    if parameters == [] then ([], [])
    else
      var rest := Unzip(parameters[1..]);
      ([parameters[0].0] + rest.0, [parameters[0].1] + rest.1)
  }

  /** Names and types paired up again, position by position. */
  function Zip(names: seq<string>, types: seq<string>): (r: seq<(string, string)>)
    requires |names| == |types|
    ensures |r| == |names|
  {
    if names == [] then [] else [(names[0], types[0])] + Zip(names[1..], types[1..])
  }

  /** Unzipping loses nothing: zipping the halves back gives the parameters. */
  lemma {:induction false} ZipUnzip(parameters: seq<(string, string)>)
    ensures Zip(Unzip(parameters).0, Unzip(parameters).1) == parameters
  {
    if parameters != [] {
      ZipUnzip(parameters[1..]);
      var r := Unzip(parameters);
      assert r.0[1..] == Unzip(parameters[1..]).0 && r.1[1..] == Unzip(parameters[1..]).1;
    }
  }

  /** Unzipping undoes zipping. */
  lemma {:induction false} UnzipZip(names: seq<string>, types: seq<string>)
    requires |names| == |types|
    ensures Unzip(Zip(names, types)) == (names, types)
  {
    if names != [] {
      UnzipZip(names[1..], types[1..]);
      var z := Zip(names, types);
      assert z[1..] == Zip(names[1..], types[1..]);
      assert names == [names[0]] + names[1..] && types == [types[0]] + types[1..];
    }
  }

  /** `generate_label`: the converted name, and the parameters split into names and types that pair up to the parameters. */
  function GenerateLabel(message: string, parameters: seq<(string, string)>, camel: string -> string): (l: LabelCode)
    ensures l.camel == camel(message) && |l.paramNames| == |l.parameters| == |parameters|
    ensures Zip(l.paramNames, l.parameters) == parameters
  {
    ZipUnzip(parameters);
    var (names, types) := Unzip(parameters);
    LabelCode(camel(message), names, types)
  }

  /** The `i`-th parameter's name and type stay together at position `i`. */
  lemma GenerateLabelAt(message: string, parameters: seq<(string, string)>, camel: string -> string, i: nat)
    requires i < |parameters|
    ensures var l := GenerateLabel(message, parameters, camel);
      l.paramNames[i] == parameters[i].0 && l.parameters[i] == parameters[i].1
  {
    var l := GenerateLabel(message, parameters, camel);
    ZipAt(l.paramNames, l.parameters, i);
  }

  /** The `i`-th pair of a zip is the `i`-th name with the `i`-th type. */
  lemma {:induction false} ZipAt(names: seq<string>, types: seq<string>, i: nat)
    requires |names| == |types| && i < |names|
    ensures Zip(names, types)[i] == (names[i], types[i])
  {
    if i > 0 {
      ZipAt(names[1..], types[1..], i - 1);
    }
  }

  /** `generate_labels`: one label per table entry, in table order. */
  function GenerateLabels(labels: seq<(string, seq<(string, string)>)>, camel: string -> string): (r: seq<LabelCode>)
    ensures |r| == |labels|
    ensures forall k :: 0 <= k < |labels| ==>
      r[k].camel == camel(labels[k].0) && |r[k].paramNames| == |r[k].parameters| && Zip(r[k].paramNames, r[k].parameters) == labels[k].1
  {
    seq(|labels|, k requires 0 <= k < |labels| => GenerateLabel(labels[k].0, labels[k].1, camel))
  }

  /**
   * `generate_roles`: for role `i` of the tree, its converted names, its
   * graph's node names, the routes to every other role, and its graph's
   * definitions. The walk starts at node 0, which every graph must have.
   */
  function GenerateRoles(roles: seq<(string, Graph)>, camel: string -> string, snake: string -> string): (r: seq<RoleCode>)
    requires forall k :: 0 <= k < |roles| ==> Definitions.Ready(roles[k].1) && |roles[k].1.nodes| > 0
    ensures |r| == |roles|
  {
    seq(|roles|, i requires 0 <= i < |roles| =>
      RoleCode(camel(roles[i].0), snake(roles[i].0), GenerateNodes(roles[i].1, camel), Routes(|roles|, i), CachedDefinitionsOf(roles[i].1)))
  }

  /**
   * What each generated role promises the template: one node name per
   * node, routes to exactly the other roles in increasing order, and
   * definitions that name only what they define.
   */
  lemma GenerateRolesSound(roles: seq<(string, Graph)>, camel: string -> string, snake: string -> string, i: nat)
    requires forall k :: 0 <= k < |roles| ==> Definitions.Ready(roles[k].1) && |roles[k].1.nodes| > 0
    requires i < |roles|
    ensures var role := GenerateRoles(roles, camel, snake)[i];
      && role.camel == camel(roles[i].0) && role.snake == snake(roles[i].0)
      && |role.nodes| == |roles[i].1.nodes| && (forall k :: 0 <= k < |role.nodes| ==> role.nodes[k] == camel(roles[i].1.nodes[k].name))
      && |role.routes| == |roles| - 1
      && (forall j: nat :: j in role.routes <==> j < |roles| && j != i)
      && (forall a, b :: 0 <= a < b < |role.routes| ==> role.routes[a] < role.routes[b])
      && Definitions.Complete(role.definitions)
  {
    CachedComplete(roles[i].1);
  }

  /**
   * `Builder::generate` on a parsed tree: an empty protocol name is an
   * error; a role whose graph has no nodes makes the definitions walk
   * panic; otherwise the protocol's converted name, its roles and its
   * labels.
   */
  function Generate(name: string, roles: seq<(string, Graph)>, labels: seq<(string, seq<(string, string)>)>,
                    camel: string -> string, snake: string -> string): (r: Outcome)
    requires forall k :: 0 <= k < |roles| ==> Definitions.Ready(roles[k].1)
    ensures r.Failed? <==> name == ""
    ensures r.Failed? ==> r.message == NameNotSet
    ensures r.Crashed? <==> name != "" && exists k :: 0 <= k < |roles| && |roles[k].1.nodes| == 0
    ensures r.Generated? ==>
      && r.protocol.camel == camel(name)
      && r.protocol.roles == GenerateRoles(roles, camel, snake)
      && r.protocol.labels == GenerateLabels(labels, camel)
  {
    if name == "" then Failed(NameNotSet)
    else if exists k :: 0 <= k < |roles| && |roles[k].1.nodes| == 0 then Crashed
    else Generated(ProtocolCode(camel(name), GenerateRoles(roles, camel, snake), GenerateLabels(labels, camel)))
  }
}
