/** The class of json.hpp: nodes on the heap, parsed into and printed. */
module JsonHeap {
  import opened Text
  import opened JsonScan
  import opened JsonPrint
  import opened JsonLaws

  lemma Unfold(text: string, r: Reader, fuel: nat)
    requires Scan(text, r, fuel).Some?
    ensures fuel > 0
    ensures match Turn(text, r)
      case Stuck => false
      case Done(result) => Scan(text, r, fuel) == Some(result)
      case Go(next) => fuel > 1 && Scan(text, r, fuel) == Scan(text, next, fuel - 1)
      case Call =>
        fuel > 1 &&
        match Scan(text, Start(r.it, FRESH), fuel - 1)
        case None => false
        case Some(child) => child.end >= r.it && Scan(text, r, fuel) == Scan(text, Resume(r, child), fuel - 1)
  {}

  /** The opening character decides what a child is. */
  lemma ChildKind(text: string, it: nat, fuel: nat)
    requires it < |text| && Scan(text, Start(it, FRESH), fuel).Some?
    ensures var kind := Scan(text, Start(it, FRESH), fuel).value.node.kind;
      && (text[it] == '"' ==> kind == String)
      && (text[it] == '{' ==> kind == Object)
      && (text[it] == '[' ==> kind == Array)
  {
    if Turn(text, Start(it, FRESH)).Go? && Turn(text, Start(it, FRESH)).next.node.kind != NoType {
      KindStays(text, Turn(text, Start(it, FRESH)).next, fuel - 1);
    }
  }

  /** The pairs of `fields` have been walked, the keys in `rest` have not. */
  predicate Walked(fields: seq<Field>, j: Json, rest: set<string>) {
    && (forall a, b :: 0 <= a < b < |fields| ==> fields[a].key != fields[b].key)
    && (forall f <- fields :: f.key in j.obj && f.key !in rest && Depicts(f.value, j.obj[f.key]))
    && (forall k <- j.obj :: k in rest || exists f <- fields :: f.key == k)
  }

  class JsonObject {
    var kind: Kind
    var stringValue: string
    var objectValues: map<string, JsonObject>
    var arrayValues: seq<JsonObject>

    ghost var Node: Json             // the tree rooted here, as a value
    ghost var Repr: set<JsonObject>  // the nodes of that tree, and no longer reachable ones

    ghost predicate ValidChild(child: JsonObject, node: Json)
      reads this, Repr
      decreases Repr, 0
    {
      && child in Repr && child.Repr < Repr && this !in child.Repr
      && child.Valid() && child.Node == node
    }

    ghost predicate Valid()
      reads this, Repr
      ensures Valid() ==> this in Repr && kind == Node.kind && stringValue == Node.str
      decreases Repr, 1
    {
      && this in Repr
      && Node.kind == kind && Node.str == stringValue
      && Node.obj.Keys == objectValues.Keys && |Node.arr| == |arrayValues|
      && (forall k <- objectValues :: ValidChild(objectValues[k], Node.obj[k]))
      && (forall i :: 0 <= i < |arrayValues| ==> ValidChild(arrayValues[i], Node.arr[i]))
      && Separate()
    }

    /** No two children share a node. */
    ghost predicate Separate()
      reads this, objectValues.Values, arrayValues
    {
      && (forall k, l | k in objectValues && l in objectValues && k != l ::
            objectValues[k].Repr !! objectValues[l].Repr)
      && (forall k, i | k in objectValues && 0 <= i < |arrayValues| ::
            objectValues[k].Repr !! arrayValues[i].Repr)
      && (forall i, j :: 0 <= i < j < |arrayValues| ==> arrayValues[i].Repr !! arrayValues[j].Repr)
    }

    constructor ()
      ensures Valid() && fresh(Repr) && Node == FRESH
    {
      kind, stringValue, objectValues, arrayValues := NoType, "", map[], [];
      Node, Repr := FRESH, {this};
    }

    constructor OfString(s: string)
      ensures Valid() && fresh(Repr) && Node == FRESH.(kind := String, str := s)
    {
      kind, stringValue, objectValues, arrayValues := String, s, map[], [];
      Node, Repr := FRESH.(kind := String, str := s), {this};
    }

    constructor OfKind(k: Kind)
      ensures Valid() && fresh(Repr) && Node == FRESH.(kind := k)
    {
      kind, stringValue, objectValues, arrayValues := k, "", map[], [];
      Node, Repr := FRESH.(kind := k), {this};
    }

    ghost predicate Is(node: Json, repr: set<JsonObject>)
      reads this, Repr
    {
      Valid() && Node == node && Repr == repr
    }

    /** A child's tree stays as it is when only this node changes. */
    twostate lemma MemberKept(key: string)
      requires old(Valid()) && key in old(objectValues) && forall o <- old(Repr) :: o != this ==> unchanged(o)
      ensures old(objectValues)[key].Is(old(Node).obj[key], old(objectValues[key].Repr))
    {
      assert old(ValidChild(objectValues[key], Node.obj[key]));
    }

    twostate lemma ItemKept(i: nat)
      requires old(Valid()) && i < |old(arrayValues)| && forall o <- old(Repr) :: o != this ==> unchanged(o)
      ensures old(arrayValues)[i].Is(old(Node).arr[i], old(arrayValues[i].Repr))
    {
      assert old(ValidChild(arrayValues[i], Node.arr[i]));
    }

    twostate lemma ChildrenKept()
      requires old(Valid()) && forall o <- old(Repr) :: o != this ==> unchanged(o)
      ensures forall k <- old(objectValues) :: old(objectValues)[k].Is(old(Node).obj[k], old(objectValues[k].Repr))
      ensures forall i :: 0 <= i < |old(arrayValues)| ==> old(arrayValues)[i].Is(old(Node).arr[i], old(arrayValues[i].Repr))
    {
      hide Is;
      forall k <- old(objectValues)
        ensures old(objectValues)[k].Is(old(Node).obj[k], old(objectValues[k].Repr))
      {
        MemberKept(k);
      }
      forall i | 0 <= i < |old(arrayValues)|
        ensures old(arrayValues)[i].Is(old(Node).arr[i], old(arrayValues[i].Repr))
      {
        ItemKept(i);
      }
    }

    /** A member that is still there is still a valid child. */
    twostate lemma MemberStays(key: string)
      requires old(Valid()) && key in old(objectValues) && forall o <- old(Repr) :: o != this ==> unchanged(o)
      requires key in objectValues && objectValues[key] == old(objectValues)[key]
      requires key in Node.obj && Node.obj[key] == old(Node).obj[key]
      requires objectValues[key] in Repr && old(objectValues[key].Repr) < Repr
      ensures ValidChild(objectValues[key], Node.obj[key]) && objectValues[key].Repr == old(objectValues[key].Repr)
    {
      assert old(ValidChild(objectValues[key], Node.obj[key]));
    }

    twostate lemma ItemStays(i: nat)
      requires old(Valid()) && i < |old(arrayValues)| && forall o <- old(Repr) :: o != this ==> unchanged(o)
      requires i < |arrayValues| && arrayValues[i] == old(arrayValues)[i]
      requires i < |Node.arr| && Node.arr[i] == old(Node).arr[i]
      requires arrayValues[i] in Repr && old(arrayValues[i].Repr) < Repr
      ensures ValidChild(arrayValues[i], Node.arr[i]) && arrayValues[i].Repr == old(arrayValues[i].Repr)
    {
      assert old(ValidChild(arrayValues[i], Node.arr[i]));
    }

    /** What every child of a valid node is. */
    lemma Member(key: string)
      requires Valid() && key in objectValues
      ensures objectValues[key] in Repr && objectValues[key].Repr < Repr && this !in objectValues[key].Repr
    {
      assert ValidChild(objectValues[key], Node.obj[key]);
    }

    lemma Item(i: nat)
      requires Valid() && i < |arrayValues|
      ensures arrayValues[i] in Repr && arrayValues[i].Repr < Repr && this !in arrayValues[i].Repr
    {
      assert ValidChild(arrayValues[i], Node.arr[i]);
    }

    lemma Children()
      requires Valid()
      ensures forall k <- objectValues :: objectValues[k] in Repr && objectValues[k].Repr < Repr && this !in objectValues[k].Repr
      ensures forall i :: 0 <= i < |arrayValues| ==> arrayValues[i] in Repr && arrayValues[i].Repr < Repr && this !in arrayValues[i].Repr
    {
      hide Valid;
      forall k <- objectValues
        ensures objectValues[k] in Repr && objectValues[k].Repr < Repr && this !in objectValues[k].Repr
      {
        Member(k);
      }
      forall i | 0 <= i < |arrayValues|
        ensures arrayValues[i] in Repr && arrayValues[i].Repr < Repr && this !in arrayValues[i].Repr
      {
        Item(i);
      }
    }

    /** A child from elsewhere. */
    ghost predicate Outside(value: JsonObject)
      reads this, value, value.Repr
    {
      value.Valid() && value.Repr !! Repr
    }

    /** With a child from elsewhere set, the children are still separate. */
    twostate lemma SeparateSet(new key: string, value: JsonObject)
      requires old(Valid()) && old(Outside(value)) && arrayValues == old(arrayValues) && objectValues == old(objectValues)[key := value]
      requires forall k <- old(objectValues) :: old(objectValues[k].Repr) < old(Repr)
      requires forall i :: 0 <= i < |old(arrayValues)| ==> old(arrayValues[i].Repr) < old(Repr)
      requires value.Repr == old(value.Repr)
      requires forall k <- objectValues | k != key :: objectValues[k].Repr == old(objectValues[k].Repr)
      requires forall i :: 0 <= i < |arrayValues| ==> arrayValues[i].Repr == old(arrayValues[i].Repr)
      ensures Separate()
    {
      hide ValidChild;
    }

    /** The node with a new member is valid. */
    twostate lemma MemberSet(new key: string, value: JsonObject)
      requires old(Valid()) && old(Outside(value)) && (forall o <- old(Repr) :: o != this ==> unchanged(o)) && forall o <- old(value.Repr) :: unchanged(o)
      requires kind == old(kind) && stringValue == old(stringValue) && arrayValues == old(arrayValues)
      requires objectValues == old(objectValues)[key := value] && Repr == old(Repr + value.Repr)
      requires Node == old(Node).(obj := old(Node).obj[key := value.Node])
      requires forall k <- old(objectValues) :: old(objectValues[k]) in old(Repr) && old(objectValues[k].Repr) < old(Repr)
      requires forall i :: 0 <= i < |old(arrayValues)| ==> old(arrayValues[i]) in old(Repr) && old(arrayValues[i].Repr) < old(Repr)
      ensures Valid()
    {
      assert ValidChild(value, Node.obj[key]) && value.Repr == old(value.Repr);
      hide ValidChild, Separate;
      forall k <- objectValues
        ensures ValidChild(objectValues[k], Node.obj[k])
        ensures k != key ==> objectValues[k].Repr == old(objectValues[k].Repr)
      {
        if k != key {
          MemberStays(k);
        }
      }
      forall i | 0 <= i < |arrayValues|
        ensures ValidChild(arrayValues[i], Node.arr[i]) && arrayValues[i].Repr == old(arrayValues[i].Repr)
      {
        ItemStays(i);
      }
      SeparateSet(key, value);
    }

    method SetMember(key: string, value: JsonObject)
      requires Valid() && value.Valid() && value.Repr !! Repr
      modifies this
      ensures Valid() && Repr == old(Repr) + value.Repr
      ensures Node == old(Node).(obj := old(Node).obj[key := value.Node])
    {
      assert Outside(value) && value !in Repr;
      hide Valid, ValidChild, Separate, Outside;
      Children();
      objectValues := objectValues[key := value];
      Node := Node.(obj := Node.obj[key := value.Node]);
      Repr := Repr + value.Repr;
      MemberSet(key, value);
    }

    /** The node with a new item is valid. */
    twostate lemma ItemPushed(value: JsonObject)
      requires old(Valid()) && old(Outside(value)) && (forall o <- old(Repr) :: o != this ==> unchanged(o)) && forall o <- old(value.Repr) :: unchanged(o)
      requires kind == old(kind) && stringValue == old(stringValue) && objectValues == old(objectValues)
      requires arrayValues == old(arrayValues) + [value] && Repr == old(Repr + value.Repr)
      requires Node == old(Node).(arr := old(Node).arr + [value.Node])
      requires forall k <- old(objectValues) :: old(objectValues[k]) in old(Repr) && old(objectValues[k].Repr) < old(Repr)
      requires forall i :: 0 <= i < |old(arrayValues)| ==> old(arrayValues[i]) in old(Repr) && old(arrayValues[i].Repr) < old(Repr)
      ensures Valid()
    {
      forall i | 0 <= i < |arrayValues|
        ensures ValidChild(arrayValues[i], Node.arr[i])
        ensures arrayValues[i].Repr == if i == |old(arrayValues)| then value.Repr else old(arrayValues[i].Repr)
      {
        if i < |old(arrayValues)| {
          ItemStays(i);
        }
      }
      hide ValidChild;
      forall k <- objectValues
        ensures ValidChild(objectValues[k], Node.obj[k]) && objectValues[k].Repr == old(objectValues[k].Repr)
      {
        MemberStays(k);
      }
    }

    method PushItem(value: JsonObject)
      requires Valid() && value.Valid() && value.Repr !! Repr
      modifies this
      ensures Valid() && Repr == old(Repr) + value.Repr
      ensures Node == old(Node).(arr := old(Node).arr + [value.Node])
    {
      assert Outside(value) && value !in Repr;
      hide Valid, ValidChild, Separate, Outside;
      Children();
      arrayValues := arrayValues + [value];
      Node := Node.(arr := Node.arr + [value.Node]);
      Repr := Repr + value.Repr;
      ItemPushed(value);
    }

    method SetKind(k: Kind)
      requires Valid()
      modifies this
      ensures Valid() && Repr == old(Repr) && Node == old(Node).(kind := k)
    {
      kind := k;
      Node := Node.(kind := k);
    }

    method SetString(s: string)
      requires Valid()
      modifies this
      ensures Valid() && Repr == old(Repr) && Node == old(Node).(str := s)
    {
      stringValue := s;
      Node := Node.(str := s);
    }

    /** A child can leave: the nodes outside it hold this node and the other children. */
    ghost predicate Leaves(key: string)
      requires key in objectValues
      reads this, Repr, objectValues.Values, arrayValues
    {
      var rest := Repr - objectValues[key].Repr;
      && this in rest
      && (forall k <- objectValues | k != key :: objectValues[k] in rest && objectValues[k].Repr < rest)
      && (forall i :: 0 <= i < |arrayValues| ==> arrayValues[i] in rest && arrayValues[i].Repr < rest)
    }

    lemma ChildLeaves(key: string)
      requires Valid() && key in objectValues
      ensures Leaves(key) && ValidChild(objectValues[key], Node.obj[key])
    {
      var child := objectValues[key];
      assert ValidChild(child, Node.obj[key]);
      var rest := Repr - child.Repr;
      forall k <- objectValues | k != key
        ensures objectValues[k] in rest && objectValues[k].Repr < rest
      {
        assert ValidChild(objectValues[k], Node.obj[k]);
        assert this in rest;
      }
      forall i | 0 <= i < |arrayValues|
        ensures arrayValues[i] in rest && arrayValues[i].Repr < rest
      {
        assert ValidChild(arrayValues[i], Node.arr[i]);
        assert this in rest;
      }
    }

    /** The node without the child is valid. */
    twostate lemma DroppedValid(key: string)
      requires old(Valid()) && key in old(objectValues) && old(Leaves(key)) && forall o <- old(Repr) :: o != this ==> unchanged(o)
      requires kind == old(kind) && stringValue == old(stringValue) && arrayValues == old(arrayValues)
      requires objectValues == old(objectValues) - {key} && Repr == old(Repr - objectValues[key].Repr)
      requires Node == old(Node).(obj := old(Node).obj - {key})
      ensures Valid()
    {
      StillSeparate();
      hide Separate, ValidChild;
      forall k <- objectValues
        ensures ValidChild(objectValues[k], Node.obj[k])
      {
        MemberStays(k);
      }
      forall i | 0 <= i < |arrayValues|
        ensures ValidChild(arrayValues[i], Node.arr[i])
      {
        ItemStays(i);
      }
    }

    /** A parent that lost children: the others are still separate. */
    twostate lemma StillSeparate()
      requires old(Valid()) && (forall o <- old(Repr) :: o != this ==> unchanged(o)) && objectValues.Keys <= old(objectValues).Keys
      requires (forall k <- objectValues :: objectValues[k] == old(objectValues[k])) && arrayValues == old(arrayValues)
      ensures Separate()
    {
      ChildrenKept();
    }

    method DropMember(key: string)
      requires Valid() && key in objectValues
      modifies this
      ensures Valid() && kind == old(kind) && Repr == old(Repr - objectValues[key].Repr)
      ensures Node == old(Node).(obj := old(Node).obj - {key})
    {
      hide Valid, ValidChild, Separate, Leaves;
      ChildLeaves(key);
      Repr := Repr - objectValues[key].Repr;
      objectValues := objectValues - {key};
      Node := Node.(obj := Node.obj - {key});
      DroppedValid(key);
    }

    /**
     The node under `key`, or a new one when there is none, taken out of the map so that it
     can be changed and put back.
     */
    method TakeMember(key: string) returns (child: JsonObject)
      requires Valid()
      modifies this
      ensures Valid() && child.Valid() && child.Repr !! Repr && kind == old(kind)
      ensures Repr <= old(Repr) && fresh(child.Repr - old(Repr))
      ensures Node == old(Node).(obj := old(Node).obj - {key})
      ensures child.Node == if key in old(Node).obj then old(Node).obj[key] else FRESH
    {
      if key in objectValues {
        ChildLeaves(key);
        child := objectValues[key];
        DropMember(key);
      } else {
        child := new JsonObject();
        assert Node.obj - {key} == Node.obj;
      }
    }

    /** A child node parsed from `it` and appended to the array; the cursor is the child's. */
    method ParseItem(text: string, it: nat, ghost fuel: nat) returns (end: int)
      requires Valid() && Scan(text, Start(it, FRESH), fuel).Some?
      modifies this
      ensures Valid() && fresh(Repr - old(Repr)) && old(Repr) <= Repr
      ensures var child := Scan(text, Start(it, FRESH), fuel).value;
        end == child.end && Node == old(Node).(arr := old(Node).arr + [child.node])
      decreases fuel, 1
    {
      hide Scan;
      var value := new JsonObject();
      end := value.Parse(text, it, fuel);
      PushItem(value);
    }

    /** A child node parsed from `it` and stored under `key`; the cursor backs up behind a string. */
    method ParseMember(text: string, it: nat, key: string, ghost fuel: nat) returns (end: int)
      requires Valid() && Scan(text, Start(it, FRESH), fuel).Some?
      modifies this
      ensures Valid() && fresh(Repr - old(Repr)) && old(Repr) <= Repr
      ensures var child := Scan(text, Start(it, FRESH), fuel).value;
        && end == (if child.node.kind != Object && child.node.kind != Array then child.end - 1 else child.end)
        && Node == old(Node).(obj := old(Node).obj[key := child.node])
      decreases fuel, 1
    {
      hide Scan;
      var value := new JsonObject();
      end := value.Parse(text, it, fuel);
      if value.kind != Object && value.kind != Array {
        end := end - 1;
      }
      SetMember(key, value);
    }

    /**
     The reader. `fuel` bounds the rounds it makes; that some fuel suffices says that the
     source's loop comes to an end without leaving the text.
     */
    method Parse(text: string, str: nat, ghost fuel: nat) returns (end: int)
      requires Valid() && Scan(text, Start(str, Node), fuel).Some?
      modifies this
      ensures Valid() && fresh(Repr - old(Repr)) && old(Repr) <= Repr
      ensures Scan(text, Start(str, old(Node)), fuel) == Some(Parsed(Node, end))
      decreases fuel, 0
    {
      hide Scan, Valid, ValidChild, Separate;
      var ss := "";
      var objState := NoState;
      var it: int := str;
      ghost var f: nat := fuel;
      while At(text, it) != NUL
        invariant 0 <= it <= |text| && Valid() && fresh(Repr - old(Repr)) && old(Repr) <= Repr
        invariant f <= fuel
        invariant Scan(text, Reader(it, Node, objState, ss), f) == Scan(text, Start(str, old(Node)), fuel)
        decreases f
      {
        Unfold(text, Reader(it, Node, objState, ss), f);
        f := f - 1;
        match text[it] {
          case '\\' =>
            it := it + 1;
            if Deleted(At(text, it)) {
              it := it + 1;
              continue;
            }
          case '"' =>
            if kind == NoType {
              SetKind(String);
              it := it + 1;
              continue;
            } else if kind == String {
              SetString(ss);
              return it + 1;
            } else if kind == Object {
              if objState == NoState {
                objState := GetKey;
                it := it + 1;
                continue;
              } else if objState == GetKey {
                objState := GotKey;
                it := it + 1;
                continue;
              }
            } else if kind == Array {
              ChildKind(text, it, f);
              it := ParseItem(text, it, f);
              it := it - 1;
              it := it + 1;
              continue;
            }
          case '{' =>
            if kind == NoType {
              SetKind(Object);
              it := it + 1;
              continue;
            } else if kind == Array {
              ChildKind(text, it, f);
              it := ParseItem(text, it, f);
            }
          case '}' =>
            if kind == Object {
              if objState == NoState {
                return it;
              }
            } else if kind == Array {
              return it;
            }
          case '[' =>
            if kind == NoType {
              SetKind(Array);
              it := it + 1;
              continue;
            } else if kind == Array {
              ChildKind(text, it, f);
              it := ParseItem(text, it, f);
              it := it + 1;
              continue;
            }
          case ']' =>
            if kind == Array {
              return it;
            } else if kind == Object {
              if objState != GetKey {
                return it;
              }
            }
          case ':' =>
            if kind == Object {
              if objState == GotKey {
                it := ParseMember(text, it, ss, f);
                ss := "";
                objState := NoState;
              }
            }
          case _ =>
        }
        if kind == String || (kind == Object && objState == GetKey) {
          ss := ss + [At(text, it)];
        }
        it := it + 1;
      }
      Unfold(text, Reader(it, Node, objState, ss), f);
      return it - 1;
    }

    static method Escape(value: string) returns (escaped: string)
      ensures escaped == Quote(value)
    {
      hide EscapeBody;
      escaped := "\"";
      assert value[0..] == value;
      for i := 0 to |value|
        invariant Quote(value) == escaped + (EscapeBody(value[i..]) + "\"")
      {
        EscapeStep(value, i);
        ghost var before := escaped;
        if value[i] == '\n' {
          escaped := escaped + "\\n";
        } else if value[i] == '\r' {
          escaped := escaped + "\\r";
        } else if value[i] == '\t' {
          escaped := escaped + "\\t";
        } else if value[i] == '"' {
          escaped := escaped + "\\\"";
        } else if value[i] == '\\' {
          escaped := escaped + "\\\\";
        } else {
          escaped := escaped + [value[i]];
        }
        assert escaped == before + EscapeChar(value[i]);
      }
      EscapeEnd(value[|value|..]);
      escaped := escaped + "\"";
    }

    static method Deescape(value: string) returns (deescaped: string)
      ensures deescaped == Unescaped(value)
    {
      hide Unescaped;
      deescaped := "";
      var i := 0;
      assert value[0..] == value;
      while i < |value|
        invariant 0 <= i <= |value|
        invariant Unescaped(value) == deescaped + Unescaped(value[i..])
      {
        UnescapeStep(value, i);
        if value[i] == '\\' && At(value, i + 1) == 'n' {
          deescaped := deescaped + "\n";
          i := i + 1;
        } else if value[i] == '\\' && At(value, i + 1) == 'r' {
          deescaped := deescaped + "\r";
          i := i + 1;
        } else if value[i] == '\\' && At(value, i + 1) == 't' {
          deescaped := deescaped + "\t";
          i := i + 1;
        } else if value[i] == '\\' && At(value, i + 1) == '"' {
          deescaped := deescaped + "\"";
          i := i + 1;
        } else if value[i] == '\\' && At(value, i + 1) == '\\' {
          deescaped := deescaped + "\\";
          i := i + 1;
        } else {
          deescaped := deescaped + [value[i]];
        }
        i := i + 1;
      }
      EscapeEnd(value[i..]);
    }

    method StringifyMember(key: string, pretty: bool, depth: nat, more: bool) returns (ss: string, ghost field: Field)
      requires Valid() && kind == Object && key in objectValues
      ensures field.key == key && Depicts(field.value, Node.obj[key])
      ensures ss == PrintField(field, pretty, depth, more)
      decreases Repr, 0
    {
      hide Print;
      ss := if pretty then Repeat('\t', depth) else "";
      var value := objectValues[key];
      assert ValidChild(value, Node.obj[key]);
      var quoted := Escape(key);
      ghost var doc;
      var text;
      text, doc := value.Stringify(pretty, depth);
      ss := ss + quoted + ":" + text;
      if more {
        ss := ss + ",";
      }
      if pretty {
        ss := ss + "\n";
      }
      field := Field(key, doc);
    }

    method StringifyMembers(pretty: bool, depth: nat) returns (ss: string, ghost fields: seq<Field>)
      requires Valid() && kind == Object
      ensures Depicts(Dict(fields), Node) && ss == PrintFields(fields, pretty, depth)
      decreases Repr, 1
    {
      hide PrintFieldsThen, PrintFields, PrintField, Separate;
      ss, fields := "", [];
      PrintNothing(pretty, depth);
      var rest := objectValues.Keys;
      while rest != {}
        invariant rest <= objectValues.Keys
        invariant ss == PrintFieldsThen(fields, pretty, depth, rest != {})
        invariant Walked(fields, Node, rest)
        decreases rest
      {
        var key :| key in rest;
        rest := rest - {key};
        ghost var field;
        var text;
        text, field := StringifyMember(key, pretty, depth, rest != {});
        PrintFieldsSnoc(fields, field, pretty, depth, rest != {});
        ss := ss + text;
        fields := fields + [field];
      }
      PrintFieldsEnd(fields, pretty, depth);
    }

    method StringifyItems(pretty: bool, depth: nat) returns (ss: string, ghost items: seq<Doc>)
      requires Valid() && kind == Array
      ensures Depicts(List(items), Node) && ss == PrintItems(items, pretty, depth)
      decreases Repr, 0
    {
      hide PrintItemsThen, PrintItems, Print;
      ss, items := "", [];
      PrintNothing(pretty, depth);
      for i := 0 to |arrayValues|
        invariant |items| == i && forall k :: 0 <= k < i ==> Depicts(items[k], Node.arr[k])
        invariant ss == PrintItemsThen(items, pretty, depth, i < |arrayValues|)
      {
        var item := arrayValues[i];
        assert ValidChild(item, Node.arr[i]);
        if pretty {
          ss := ss + Repeat('\t', depth);
        }
        var text, doc := item.Stringify(pretty, depth);
        if item == arrayValues[|arrayValues| - 1] {
          ss := ss + text;
        } else {
          ss := ss + text + ",";
        }
        if pretty {
          ss := ss + "\n";
        }
        PrintItemsSnoc(items, doc, pretty, depth, i + 1 < |arrayValues|);
        items := items + [doc];
      }
      PrintItemsEnd(items, pretty, depth);
    }

    /** Prints the node; `doc` is the order in which its maps happened to be walked. */
    method Stringify(pretty: bool, depth: nat) returns (result: string, ghost doc: Doc)
      requires Valid()
      ensures Depicts(doc, Node) && result == Print(doc, pretty, depth)
      ensures Prints(Node, pretty, depth, result)
      decreases Repr, 2
    {
      var inner := if pretty then depth + 1 else depth;
      match kind {
        case NoType =>
          result, doc := "\"\"", Empty;
        case String =>
          result := Escape(stringValue);
          doc := Str(stringValue);
        case Object =>
          ghost var fields;
          result, fields := StringifyMembers(pretty, inner);
          result := "{" + NewLine(pretty) + result;
          if pretty {
            result := result + Repeat('\t', depth);
          }
          result := result + "}";
          doc := Dict(fields);
        case Array =>
          ghost var items;
          result, items := StringifyItems(pretty, inner);
          result := "[" + NewLine(pretty) + result;
          if pretty {
            result := result + Repeat('\t', depth);
          }
          result := result + "]";
          doc := List(items);
      }
    }
  }
}
