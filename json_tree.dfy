/**
 * The part of Jackson's `JsonNode` tree the Jira mappers read. An object keeps its members in
 * document order (Jackson's `ObjectNode` is backed by a `LinkedHashMap`).
 */
module JsonTree {
  import opened Wrappers

  datatype JsonNode =
    | JNull
    | JBool(b: bool)
    | JNumber(text: string)   // the text Jackson's asText() gives for this number
    | JString(s: string)
    | JArray(elems: seq<JsonNode>)
    | JObject(members: seq<(string, JsonNode)>)

  /** The value of the first member called `name`, or None when there is none. */
  function Lookup(members: seq<(string, JsonNode)>, name: string): Option<JsonNode> {
    if members == [] then None
    else if members[0].0 == name then Some(members[0].1)
    else Lookup(members[1..], name)
  }

  /**
   * A lookup misses exactly when no member has the name, and a hit is the value of the first
   * member that has it.
   */
  lemma {:induction false} LookupFindsFirst(members: seq<(string, JsonNode)>, name: string)
    ensures Lookup(members, name).None? <==> forall i | 0 <= i < |members| :: members[i].0 != name
    ensures Lookup(members, name).Some? ==>
              exists i | 0 <= i < |members| ::
                && members[i] == (name, Lookup(members, name).value)
                && forall j | 0 <= j < i :: members[j].0 != name
  {
    if members != [] && members[0].0 != name {
      LookupFindsFirst(members[1..], name);
      if Lookup(members, name).Some? {
        var i :| 0 <= i < |members| - 1 && members[1..][i] == (name, Lookup(members, name).value) &&
                 forall j | 0 <= j < i :: members[1..][j].0 != name;
        assert members[i + 1] == (name, Lookup(members, name).value);
        assert forall j | 0 <= j < i + 1 :: members[j].0 != name by {
          forall j | 0 <= j < i + 1 ensures members[j].0 != name {
            if j > 0 { assert members[j] == members[1..][j - 1]; }
          }
        }
      } else {
        assert forall i | 0 <= i < |members| :: members[i].0 != name by {
          forall i | 0 <= i < |members| ensures members[i].0 != name {
            if i > 0 { assert members[i] == members[1..][i - 1]; }
          }
        }
      }
    } else if members != [] {
      assert members[0] == (name, Lookup(members, name).value);
    }
  }

  /**
   * No two members share a name. Every object Jackson builds is a `LinkedHashMap` and so has
   * this property; for those objects which member a lookup "finds first" does not matter.
   */
  predicate DistinctNames(members: seq<(string, JsonNode)>) {
    forall i, j | 0 <= i < j < |members| :: members[i].0 != members[j].0
  }

  /** In an object with distinct member names, `get(name)` is `v` exactly when `(name, v)` is a member. */
  lemma {:induction false} LookupDistinct(members: seq<(string, JsonNode)>, name: string, v: JsonNode)
    requires DistinctNames(members)
    ensures Lookup(members, name) == Some(v) <==> exists i | 0 <= i < |members| :: members[i] == (name, v)
  {
    if members != [] {
      var tail := members[1..];
      assert DistinctNames(tail) by {
        forall i, j | 0 <= i < j < |tail| ensures tail[i].0 != tail[j].0 {
          assert tail[i] == members[i + 1] && tail[j] == members[j + 1];
        }
      }
      LookupDistinct(tail, name, v);
      if members[0].0 == name {
        // no later member has that name, so the only candidate is the first one
        if exists i | 0 <= i < |members| :: members[i] == (name, v) {
          var i :| 0 <= i < |members| && members[i] == (name, v);
          assert i == 0;
        }
      } else {
        if exists i | 0 <= i < |members| :: members[i] == (name, v) {
          var i :| 0 <= i < |members| && members[i] == (name, v);
          assert tail[i - 1] == members[i];
        }
        if exists i | 0 <= i < |tail| :: tail[i] == (name, v) {
          var i :| 0 <= i < |tail| && tail[i] == (name, v);
          assert members[i + 1] == tail[i];
        }
      }
    }
  }

  /** `node.get(name)`: a member of an object; every other kind of node answers null. */
  function Get(node: JsonNode, name: string): Option<JsonNode> {
    if node.JObject? then Lookup(node.members, name) else None
  }

  /** `node.has(name)`, which Jackson defines as `get(name) != null`. */
  predicate Has(node: JsonNode, name: string) {
    Get(node, name).Some?
  }

  /** `node.asText()`: JSON null reads as "null", containers as the empty string. */
  function AsText(node: JsonNode): string {
    match node
    case JNull => "null"
    case JBool(b) => if b then "true" else "false"
    case JNumber(t) => t
    case JString(s) => s
    case JArray(_) => ""
    case JObject(_) => ""
  }

  /**
   * `getJsonString(node, name)` of IssueService and ProjectService: the member's text, or null
   * when the member is absent or JSON null.
   */
  function GetJsonString(node: JsonNode, name: string): (r: Option<string>)
    ensures r.None? <==> Get(node, name) == None || Get(node, name) == Some(JNull)
    ensures r.Some? ==> r.value == AsText(Get(node, name).value)
    ensures Get(node, name).Some? && Get(node, name).value.JString? ==> r == Some(Get(node, name).value.s)
  {
    var field := Get(node, name);
    if field.Some? && !field.value.JNull? then Some(AsText(field.value)) else None
  }

  /** The node reached by following the member names of `path`, if every step exists. */
  function GetPath(node: JsonNode, path: seq<string>): Option<JsonNode>
    decreases |path|
  {
    if path == [] then Some(node)
    else match Get(node, path[0])
      case None => None
      case Some(child) => GetPath(child, path[1..])
  }

  /**
   * Reference reading of an optional attribute: the text at the end of `path`, or null when a
   * step is missing or the leaf is JSON null.
   */
  function TextAt(node: JsonNode, path: seq<string>): Option<string> {
    match GetPath(node, path)
    case None => None
    case Some(leaf) => if leaf.JNull? then None else Some(AsText(leaf))
  }

  /** Reading through `has(..)`/`asText()`: a JSON-null leaf still yields its text, "null". */
  function RawTextAt(node: JsonNode, path: seq<string>): Option<string> {
    match GetPath(node, path)
    case None => None
    case Some(leaf) => Some(AsText(leaf))
  }

  /** What `for (JsonNode n : node)` visits: array elements, object member values, else nothing. */
  function Elements(node: JsonNode): (r: seq<JsonNode>)
    ensures node.JArray? ==> r == node.elems
    ensures node.JObject? ==>
              |r| == |node.members| && forall i | 0 <= i < |r| :: r[i] == node.members[i].1
    ensures !node.JArray? && !node.JObject? ==> r == []
  {
    match node
    case JArray(es) => es
    case JObject(ms) => seq(|ms|, i requires 0 <= i < |ms| => ms[i].1)
    case _ => []
  }

  /** A one-step path reading is exactly `getJsonString`. */
  lemma TextAtSingleMember(node: JsonNode, name: string)
    ensures TextAt(node, [name]) == GetJsonString(node, name)
  {
    assert [name][1..] == [];
    if Get(node, name).Some? {
      assert GetPath(Get(node, name).value, []) == Get(node, name);
    }
  }
}
