// The object store of src/dsmr.c: a tree from OBIS references to objects updated in place.
module ObisStore {
  import opened RbNodes
  import opened RedBlackTree
  import opened Telegram
  import opened Options
  import Obis
  import Strcmp

  class ObisObject {
    var v: Obis.Value

    // calloc
    constructor ()
      ensures v == Obis.BLANK
    {
      v := Obis.BLANK;
    }
  }

  class ObjectStore {
    const tree: RbTree
    const decode: Obis.Decoder
    ghost var boxes: map<Key, ObisObject>

    // dsmr_init
    constructor (nil: Node, decode: Obis.Decoder)
      requires nil.color == BLACK
      ensures Valid() && Contents() == map[] && fresh(Repr())
      ensures tree.nil == nil && this.decode == decode
    {
      this.decode := decode;
      boxes := map[];
      Strcmp.StrcmpOrders();
      tree := new RbTree(nil, Strcmp.Less, Strcmp.Equal);
    }

    ghost function Repr(): set<object>
      reads this, tree
    {
      {this, tree} + tree.repr + boxes.Values
    }

    // Every value of the tree is an object of its own.
    ghost predicate Valid()
      reads this, tree, tree.repr, tree.nil`color
    {
      && tree.Valid() && tree.nil !in tree.repr && tree.Map() == boxes
      && forall j, k | j in boxes && k in boxes && j != k :: boxes[j] != boxes[k]
    }

    ghost function Contents(): Obis.Store
      reads this, boxes.Values
    {
      map k | k in boxes :: boxes[k].v
    }

    // The object of a known reference, allocated and put in the tree when there is none.
    method Obtain(k: Key) returns (de: ObisObject)
      requires Valid()
      modifies this, tree, tree.repr
      ensures Valid() && k in boxes && boxes[k] == de
      ensures k in old(boxes) ==> boxes == old(boxes) && de.v == old(boxes[k].v)
      ensures k !in old(boxes) ==> fresh(de) && de.v == Obis.BLANK && boxes == old(boxes)[k := de]
      ensures fresh(tree.repr - old(tree.repr))
    {
      hide RbTree.Valid;
      hide RbTree.Map;
      var found: object? := tree.Get(k);
      if found == null {
        assert k !in boxes;
        de := new ObisObject();
        ghost var added, rotations;
        var before;
        before, added, rotations := tree.Put(k, de);
        boxes := boxes[k := de];
        NilApart();
      } else {
        de := found as ObisObject;
      }
    }

    lemma NilApart()
      requires tree.Valid()
      ensures tree.nil !in tree.repr
    {
    }

    // rbtree_get on the objects.
    method Look(k: Key) returns (o: ObisObject?)
      requires Valid()
      ensures o == null <==> k !in Contents()
      ensures o != null ==> o.v == Contents()[k]
    {
      hide RbTree.Valid, RbTree.Map;
      var found: object? := tree.Get(k);
      o := if found == null then null else found as ObisObject;
    }

    // The search through obis_map.
    method Search(reference: Key) returns (j: nat)
      ensures j <= |Obis.TABLE|
      ensures Obis.Find(reference, 0) == if j < |Obis.TABLE| then Some(Obis.TABLE[j]) else None
    {
      j := 0;
      while j < |Obis.TABLE| && Obis.TABLE[j].reference != reference
        invariant j <= |Obis.TABLE| && Obis.Find(reference, 0) == Obis.Find(reference, j)
      {
        j := j + 1;
      }
    }

    // The object is there afterwards even when its value does not decode.
    method Assign(k: Key, v: Option<Obis.Value>)
      requires Valid()
      modifies Repr()
      ensures Valid() && Contents() == old(Contents())[k :=
                if v.Some? then v.value else if k in old(Contents()) then old(Contents())[k] else Obis.BLANK]
      ensures fresh(Repr() - old(Repr()))
    {
      hide RbTree.Valid;
      hide RbTree.Map;
      var de := Obtain(k);
      assert de in boxes.Values;
      if v.Some? {
        de.v := v.value;
      }
    }

    // The body of the loop over the rows of an accepted telegram.
    method ProcessRow(text: Line)
      requires Valid()
      modifies Repr()
      ensures Valid() && Contents() == Obis.UpdateRow(decode, old(Contents()), text)
      ensures fresh(Repr() - old(Repr()))
    {
      hide Valid;
      hide Contents;
      hide Obis.Split;
      hide Obis.Find;
      var parts := Obis.Split(CStr(text));
      if parts.None? {
        return;
      }
      var reference, value := Obis.Chars(Obis.Field(parts.value.0)), Obis.Field(parts.value.1);
      var j := Search(reference);
      if j < |Obis.TABLE| {
        var entry := Obis.TABLE[j];
        var v: Option<Obis.Value>;
        match entry.kind {
          case NULL => v := None;
          case LSTRING => v := Some(Obis.StringValue(value));
          case _ => v := decode(entry.kind, entry.unit, value);
        }
        Assign(reference, v);
      }
    }
  }
}
