// The connection handler of src/http.c: a tree from uris to trees from methods to resources, all
// over the one sentinel.
module Handlers {
  import opened RbNodes
  import opened RedBlackTree
  import opened Forest
  import opened Routing
  import Strcmp

  // struct resource_info
  class Resource {
    const target: Target

    constructor (target: Target)
      ensures this.target == target
    {
      this.target := target;
    }
  }

  ghost predicate Holds(m: map<Key, object?>) {
    forall k | k in m :: m[k] is Resource
  }

  ghost function Targets(m: map<Key, object?>): map<Key, Target>
    requires Holds(m)
  {
    map k | k in m :: (m[k] as Resource).target
  }

  // The uri tree, first of the trees, finds the tree of each uri, which holds the resources of its
  // methods.
  ghost predicate Represents(top: RbTree, trees: seq<RbTree>, maps: Maps, uris: seq<Key>, routes: Routes) {
    && |trees| == |maps| == |uris| + 1 && trees[0] == top
    && (forall i, j | 0 <= i < j < |uris| :: uris[i] != uris[j])
    && (forall i | 0 <= i < |uris| :: FindsTree(trees, maps, uris, routes, i))
    && (forall u | u in maps[0] || u in routes :: u in uris)
  }

  ghost predicate FindsTree(trees: seq<RbTree>, maps: Maps, uris: seq<Key>, routes: Routes, i: nat)
    requires |trees| == |maps| == |uris| + 1 && i < |uris|
  {
    && uris[i] in maps[0] && maps[0][uris[i]] == trees[i + 1]
    && uris[i] in routes && Holds(maps[i + 1]) && Targets(maps[i + 1]) == routes[uris[i]]
  }

  lemma AddTree(top: RbTree, trees: seq<RbTree>, maps: Maps, uris: seq<Key>, routes: Routes, uri: Key, m: RbTree)
    requires Represents(top, trees, maps, uris, routes) && uri !in uris
    ensures Represents(top, trees + [m], (maps + [map[]])[0 := maps[0][uri := m]], uris + [uri], routes[uri := map[]])
  {
    hide Holds, Targets;
    var us, ms, rs := uris + [uri], (maps + [map[]])[0 := maps[0][uri := m]], routes[uri := map[]];
    EmptyHolds();
    forall i | 0 <= i < |us| ensures FindsTree(trees + [m], ms, us, rs, i) {
      assert i < |uris| ==> FindsTree(trees, maps, uris, routes, i) && uris[i] != uri;
    }
  }

  lemma EmptyHolds()
    ensures Holds(map[]) && Targets(map[]) == map[]
  {
  }

  lemma AddResource(top: RbTree, trees: seq<RbTree>, maps: Maps, uris: seq<Key>, routes: Routes,
                    k: nat, verb: Key, info: Resource)
    requires Represents(top, trees, maps, uris, routes) && k < |uris|
    requires FindsTree(trees, maps, uris, routes, k)
    ensures Represents(top, trees, maps[k + 1 := maps[k + 1][verb := info]], uris,
                       routes[uris[k] := routes[uris[k]][verb := info.target]])
  {
    hide Holds, Targets;
    var ms := maps[k + 1 := maps[k + 1][verb := info]];
    var rs := routes[uris[k] := routes[uris[k]][verb := info.target]];
    PutTarget(maps[k + 1], verb, info);
    forall i | 0 <= i < |uris| ensures FindsTree(trees, ms, uris, rs, i) {
      assert FindsTree(trees, maps, uris, routes, i);
      assert i != k ==> uris[i] != uris[k];
    }
  }

  lemma PutTarget(m: map<Key, object?>, verb: Key, info: Resource)
    requires Holds(m)
    ensures Holds(m[verb := info]) && Targets(m[verb := info]) == Targets(m)[verb := info.target]
  {
  }

  class Handler {
    const nil: Node
    const resources: RbTree
    var default: Target
    // The trees, the uri tree first, with their maps; the uris of the others; what was registered.
    ghost var trees: seq<RbTree>
    ghost var maps: Maps
    ghost var uris: seq<Key>
    ghost var history: seq<Registration>

    // handler_init
    constructor (nil: Node)
      requires nil.color == BLACK
      ensures Valid() && history == [] && this.nil == nil
      ensures fresh(trees) && fresh(Footprint(trees))
    {
      this.nil := nil;
      Strcmp.StrcmpOrders();
      resources := new RbTree(nil, Strcmp.Less, Strcmp.Equal);
      default := Target("", "");
      maps, uris, history := [map[]], [], [];
      new;
      trees := [resources];
      NoSentinel(resources);
    }

    ghost predicate Valid()
      reads this, trees, Footprint(trees), nil`color
    {
      Agree(trees, nil, maps) && Represents(resources, trees, maps, uris, RoutesOf(history))
    }

    // A put into one of the trees.
    method PutAt(t: RbTree, ghost j: nat, key: Key, value: object)
      requires Agree(trees, nil, maps) && j < |trees| && trees[j] == t
      modifies this`maps, trees, Footprint(trees), nil`parent, nil`color
      ensures maps == old(maps)[j := old(maps)[j][key := value]] && Agree(trees, nil, maps)
      ensures fresh(Footprint(trees) - old(Footprint(trees)))
    {
      hide Agree;
      AgreeLength(trees, nil, maps);
      var _ := ApplyAt(t, trees, nil, j, PutOp(0, key, value), maps);
      maps := maps[j := maps[j][key := value]];
    }

    // rbtree_init for a new uri.
    method NewTree() returns (m: RbTree)
      requires Agree(trees, nil, maps)
      modifies this`trees, this`maps
      ensures trees == old(trees) + [m] && maps == old(maps) + [map[]] && Agree(trees, nil, maps)
      ensures fresh(m) && Footprint(trees) == old(Footprint(trees))
    {
      hide RbTree.Valid, RbTree.Map;
      Strcmp.StrcmpOrders();
      m := new RbTree(nil, Strcmp.Less, Strcmp.Equal);
      NoSentinel(m);
      FootprintSnoc(trees, m);
      trees, maps := trees + [m], maps + [map[]];
    }

    lemma FootprintSnoc(ts: seq<RbTree>, m: RbTree)
      ensures Footprint(ts + [m]) == Footprint(ts) + m.repr
    {
      var s := ts + [m];
      assert forall i | 0 <= i < |ts| :: s[i] == ts[i];
      assert s[|ts|] == m;
    }

    // handler_register_default
    method RegisterDefault(target: Target)
      requires Valid()
      modifies this`default
      ensures Valid() && default == target
    {
      default := target;
    }

    // handler_register_resource: the tree of the uri, made when there is none, then the resource.
    method Register(uri: Key, verb: Key, target: Target)
      requires Valid()
      modifies this`trees, this`maps, this`uris, this`history, trees, Footprint(trees), nil`parent, nil`color
      ensures Valid() && history == old(history) + [Registration(uri, verb, target)]
      ensures fresh(Footprint(trees) - old(Footprint(trees)))
      ensures forall i | 0 <= i < |trees| :: trees[i] in old(trees) || fresh(trees[i])
    {
      hide Valid, Represents, FindsTree, Agree, RoutesOf;
      ghost var k;
      var m;
      m, k := Subtree(uri);
      Enter(m, k, uri, verb, target);
    }

    // What is to be served, once a uri has its tree.
    ghost function WithUri(uri: Key): (routes: Routes)
      reads this
      ensures uri in routes
    {
      var routes := RoutesOf(history);
      if uri in routes then routes else routes[uri := map[]]
    }

    ghost predicate HasTree(m: RbTree, k: nat, uri: Key)
      reads this
    {
      && Represents(resources, trees, maps, uris, WithUri(uri))
      && k + 1 < |trees| && k < |uris| && |maps| == |uris| + 1 && uris[k] == uri && trees[k + 1] == m
      && FindsTree(trees, maps, uris, WithUri(uri), k)
    }

    // The resource joins the tree of its uri.
    method Enter(m: RbTree, ghost k: nat, uri: Key, verb: Key, target: Target)
      requires Agree(trees, nil, maps) && HasTree(m, k, uri)
      modifies this`maps, this`history, trees, Footprint(trees), nil`parent, nil`color
      ensures Valid() && history == old(history) + [Registration(uri, verb, target)]
      ensures fresh(Footprint(trees) - old(Footprint(trees)))
    {
      hide Represents, FindsTree, Agree, RoutesOf;
      ghost var known := WithUri(uri);
      var info := new Resource(target);
      AddResource(resources, trees, maps, uris, known, k, verb, info);
      PutAt(m, k + 1, verb, info);
      history := history + [Registration(uri, verb, target)];
      RoutesSnoc(old(history), Registration(uri, verb, target));
    }

    method Subtree(uri: Key) returns (m: RbTree, ghost k: nat)
      requires Valid()
      modifies this`trees, this`maps, this`uris, trees, Footprint(trees), nil`parent, nil`color
      ensures Agree(trees, nil, maps)
      ensures HasTree(m, k, uri)
      ensures fresh(Footprint(trees) - old(Footprint(trees)))
      ensures forall i | 0 <= i < |trees| :: trees[i] in old(trees) || fresh(trees[i])
    {
      hide RbTree.Valid, RbTree.Map, Agree;
      var found: RbTree?;
      found, k := Find(uri);
      if found == null {
        k := |uris|;
        m := AddUri(uri);
      } else {
        m := found;
      }
    }

    // A new tree for a uri without one.
    method AddUri(uri: Key) returns (m: RbTree)
      requires Valid() && uri !in uris && uri !in RoutesOf(history)
      modifies this`trees, this`maps, this`uris, trees, Footprint(trees), nil`parent, nil`color
      ensures Agree(trees, nil, maps)
      ensures HasTree(m, old(|uris|), uri)
      ensures fresh(Footprint(trees) - old(Footprint(trees)))
      ensures fresh(m) && trees == old(trees) + [m]
    {
      hide RbTree.Valid, RbTree.Map, Agree;
      ghost var ts, ms, k := trees, maps, |uris|;
      m := NewTree();
      PutAt(resources, 0, uri, m);
      AddTree(resources, ts, ms, uris, RoutesOf(history), uri, m);
      uris := uris + [uri];
      assert FindsTree(trees, maps, uris, RoutesOf(history)[uri := map[]], k);
    }

    method Look(t: RbTree, ghost j: nat, key: Key) returns (r: object?)
      requires Agree(trees, nil, maps) && j < |trees| && trees[j] == t
      ensures r == if key in maps[j] then maps[j][key] else null
    {
      hide RbTree.Valid, RbTree.Map;
      r := t.Get(key);
    }

    // rest_register: the default, then every entry of the table.
    method RestRegister()
      requires Valid()
      modifies this`default, this`trees, this`maps, this`uris, this`history
      modifies trees, Footprint(trees), nil`parent, nil`color
      ensures Valid() && default == GET_FILE && history == old(history) + RESOURCE_TABLE
    {
      hide RESOURCE_TABLE, Valid, RoutesOf, Represents, Agree;
      RegisterDefault(GET_FILE);
      for i := 0 to |RESOURCE_TABLE|
        invariant Valid() && default == GET_FILE && history == old(history) + RESOURCE_TABLE[..i]
        invariant fresh(Footprint(trees) - old(Footprint(trees)))
        invariant forall k | 0 <= k < |trees| :: trees[k] in old(trees) || fresh(trees[k])
      {
        var r := RESOURCE_TABLE[i];
        assert RESOURCE_TABLE[..i + 1] == RESOURCE_TABLE[..i] + [r];
        Register(r.uri, r.verb, r.target);
      }
    }

    lemma RoutesSnoc(history: seq<Registration>, r: Registration)
      ensures var routes := RoutesOf(history);
              var known := if r.uri in routes then routes else routes[r.uri := map[]];
              RoutesOf(history + [r]) == known[r.uri := known[r.uri][r.verb := r.target]]
    {
      assert (history + [r])[..|history|] == history;
    }

    // The tree of a uri.
    method Find(uri: Key) returns (m: RbTree?, ghost k: nat)
      requires Valid()
      ensures Agree(trees, nil, maps)
      ensures m == null <==> uri !in RoutesOf(history)
      ensures m == null ==> uri !in uris
      ensures m != null ==> k + 1 < |trees| && k < |uris| && |maps| == |uris| + 1 && uris[k] == uri && trees[k + 1] == m
                            && FindsTree(trees, maps, uris, RoutesOf(history), k)
    {
      hide RbTree.Valid, RbTree.Map;
      k := 0;
      var found: object? := Look(resources, 0, uri);
      forall i | 0 <= i < |uris| ensures uris[i] == uri ==> found != null {
        assert FindsTree(trees, maps, uris, RoutesOf(history), i);
      }
      if found == null {
        m := null;
        assert uri !in maps[0] ==> uri !in uris by {
          forall i | 0 <= i < |uris| ensures uris[i] in maps[0] {
            assert FindsTree(trees, maps, uris, RoutesOf(history), i);
          }
        }
      } else {
        k :| 0 <= k < |uris| && uris[k] == uri;
        assert FindsTree(trees, maps, uris, RoutesOf(history), k);
        m := found as RbTree;
      }
    }

    // handler_callback
    method Route(uri: Key, verb: Key) returns (a: Answer)
      requires Valid()
      ensures a == Searched(history, default, uri, verb)
    {
      hide Agree, Represents, Looked, Searched;
      LookedIsSearched(history, default, uri, verb);
      ghost var k;
      var m;
      m, k := Find(uri);
      if m == null {
        LookedUp(RoutesOf(history), default, uri, verb);
        a := Served(default);
      } else {
        LookedUp(RoutesOf(history), default, uri, verb);
        var info: object? := Look(m, k + 1, verb);
        if info == null {
          a := NotAllowed;
        } else {
          a := Served((info as Resource).target);
        }
      }
    }
  }
}
