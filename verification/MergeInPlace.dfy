/** The merge as it changes a tree of maps in place. */
module MergeInPlace {
  import opened MergePatch

  /** A member of a mutable object: an object of its own, or anything else. */
  datatype Val = Leaf(j: Json) | Sub(node: Node)

  class Node {
    var members: map<string, Val>
    /** The members as values, all the way down. */
    ghost var value: map<string, Json>
    ghost var repr: set<Node>

    /** A tree: no object is reached on two ways. */
    ghost predicate Valid()
      reads this, repr
      decreases repr
    {
      && this in repr && members.Keys == value.Keys
      && (forall k :: k in members && members[k].Leaf? ==> value[k] == members[k].j && !value[k].Obj?)
      && (forall k :: k in members && members[k].Sub? ==>
           var c := members[k].node;
           c in repr && c.repr <= repr && this !in c.repr && c.Valid() && value[k] == Obj(c.value))
      && (forall j, k :: j in members && k in members && j != k && members[j].Sub? && members[k].Sub? ==>
           members[j].node.repr !! members[k].node.repr)
    }

    constructor (ms: map<string, Json>)
      ensures Valid() && fresh(repr) && value == ms
      decreases Obj(ms), 0
    {
      members := map[];
      value := map[];
      repr := {this};
      new;
      var todo := ms.Keys;
      while todo != {}
        invariant Valid() && fresh(repr) && todo <= ms.Keys
        invariant value == map k | k in ms && k !in todo :: ms[k]
        decreases todo
      {
        var key :| key in todo;
        Put(key, ms[key]);
        todo := todo - {key};
      }
    }

    /** dst[key] = srcVal */
    method Put(key: string, srcVal: Json)
      requires Valid()
      modifies this
      ensures Valid() && fresh(repr - old(repr)) && old(repr) <= repr
      ensures value == old(value)[key := srcVal]
      decreases srcVal, 1
    {
      if srcVal.Obj? {
        var n := new Node(srcVal.members);
        Adopt(key, n);
      } else {
        members := members[key := Leaf(srcVal)];
        value := value[key := srcVal];
      }
    }

    method Adopt(key: string, n: Node)
      requires Valid() && n.Valid() && n.repr !! repr
      modifies this
      ensures Valid() && repr == old(repr) + n.repr
      ensures value == old(value)[key := Obj(n.value)]
    {
      members := members[key := Sub(n)];
      repr := repr + n.repr;
      value := value[key := Obj(n.value)];
    }

    method Delete(key: string)
      requires Valid()
      modifies this
      ensures Valid() && repr == old(repr) && value == old(value) - {key}
    {
      members := members - {key};
      value := value - {key};
    }

    method MergeSub(key: string, src: map<string, Json>)
      requires Valid() && key in members && members[key].Sub?
      modifies repr
      ensures Valid() && fresh(repr - old(repr)) && old(repr) <= repr
      ensures value == old(value)[key := MergedMember(old(value)[key], Obj(src))]
      decreases Obj(src), 1
    {
      var c := members[key].node;
      SubMerged(c.value, src);
      hide Merged, MergedMember;
      c.Merge(src);
      Readopt(key);
    }

    /** Valid but for the record of what one member has become. */
    ghost predicate ValidBut(key: string)
      requires key in members && members[key].Sub?
      reads this, repr, members[key].node, members[key].node.repr
    {
      var c := members[key].node;
      && this in repr && this !in c.repr && c.Valid() && members.Keys == value.Keys
      && (forall k :: k in members && members[k].Leaf? ==> value[k] == members[k].j && !value[k].Obj?)
      && (forall k :: k in members && k != key && members[k].Sub? ==>
           var d := members[k].node;
           d in repr && d.repr <= repr && this !in d.repr && d.Valid() && value[k] == Obj(d.value) && d.repr !! c.repr)
      && (forall j, k :: j != k && IsOther(j, key) && IsOther(k, key) ==> members[j].node.repr !! members[k].node.repr)
    }

    ghost predicate IsOther(k: string, key: string)
      reads this`members
    {
      k in members && k != key && members[k].Sub?
    }

    ghost method Readopt(key: string)
      requires key in members && members[key].Sub? && ValidBut(key)
      modifies this`repr, this`value
      ensures Valid() && repr == old(repr) + members[key].node.repr
      ensures value == old(value)[key := Obj(members[key].node.value)]
    {
      var c := members[key].node;
      repr := repr + c.repr;
      value := value[key := Obj(c.value)];
      assert c in c.repr;
    }

    method Merge(src: map<string, Json>)
      requires Valid()
      modifies repr
      ensures Valid() && fresh(repr - old(repr)) && old(repr) <= repr
      ensures value == Merged(old(value), src)
      decreases Obj(src), 0
    {
      ghost var dst := value;
      var todo := src.Keys;
      MergedAtEnds(dst, src);
      hide Merged, MergedBut, MergedMember;
      while todo != {}
        invariant Valid() && fresh(repr - old(repr)) && old(repr) <= repr && todo <= src.Keys
        invariant value == MergedBut(dst, src, todo)
        decreases todo
      {
        var key :| key in todo;
        var srcVal := src[key];
        MergedStep(dst, src, todo, key);
        if srcVal.Null? {
          Delete(key);
        } else if srcVal.Obj? && key in members && members[key].Sub? {
          MergeSub(key, srcVal.members);
        } else {
          TakenOver(if key in value then value[key] else Null, srcVal);
          Put(key, srcVal);
        }
        todo := todo - {key};
      }
    }
  }

  lemma SubMerged(d: map<string, Json>, src: map<string, Json>)
    ensures MergedMember(Obj(d), Obj(src)) == Obj(Merged(d, src))
  {
  }

  lemma TakenOver(dstVal: Json, srcVal: Json)
    requires !dstVal.Obj? || !srcVal.Obj?
    ensures MergedMember(dstVal, srcVal) == srcVal
  {
  }

  /** The merge when the keys in `todo` have not been visited yet. */
  ghost function MergedBut(dst: map<string, Json>, src: map<string, Json>, todo: set<string>): map<string, Json> {
    map k | k in dst.Keys + src.Keys && (if k in src && k !in todo then !src[k].Null? else k in dst) ::
      if k in src && k !in todo then MergedMember(if k in dst then dst[k] else Null, src[k]) else dst[k]
  }

  lemma MergedAtEnds(dst: map<string, Json>, src: map<string, Json>)
    ensures MergedBut(dst, src, src.Keys) == dst && MergedBut(dst, src, {}) == Merged(dst, src)
  {
  }

  lemma MergedStep(dst: map<string, Json>, src: map<string, Json>, todo: set<string>, key: string)
    requires key in todo && key in src
    ensures var m := MergedBut(dst, src, todo);
      MergedBut(dst, src, todo - {key})
        == if src[key].Null? then m - {key} else m[key := MergedMember(if key in m then m[key] else Null, src[key])]
  {
  }
}
