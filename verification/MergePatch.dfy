/** The configuration merge, compared with JSON Merge Patch (section 2 of RFC 7396). */
module MergePatch {

  datatype Json = Null | Scalar(text: string) | Arr(items: seq<Json>) | Obj(members: map<string, Json>)

  /** RFC 7396: the target after the patch. An absent member counts as one that is not an object. */
  function Patched(target: Json, patch: Json): Json
    decreases patch
  {
    if !patch.Obj? then patch
    else
      var t := if target.Obj? then target.members else map[];
      var p := patch.members;
      Obj(map k | k in t.Keys + p.Keys && !(k in p && p[k].Null?) ::
        if k in p then Patched(if k in t then t[k] else Null, p[k]) else t[k])
  }

  /** What mergeMap leaves in dst: an object that meets no object is taken over as it is. */
  function Merged(dst: map<string, Json>, src: map<string, Json>): map<string, Json>
    decreases Obj(src), 0
  {
    map k | k in dst.Keys + src.Keys && !(k in src && src[k].Null?) ::
      if k !in src then dst[k] else MergedMember(if k in dst then dst[k] else Null, src[k])
  }

  function MergedMember(dstVal: Json, srcVal: Json): Json
    decreases srcVal, 1
  {
    if srcVal.Obj? && dstVal.Obj? then Obj(Merged(dstVal.members, srcVal.members)) else srcVal
  }

  /** j without the null members of its objects; RFC 7396 does not look into arrays. */
  function Erased(j: Json): Json {
    if j.Obj? then Obj(map k | k in j.members && !j.members[k].Null? :: Erased(j.members[k])) else j
  }

  predicate NullFree(j: Json) {
    j.Obj? ==> forall k :: k in j.members ==> !j.members[k].Null? && NullFree(j.members[k])
  }

  /** Patch objects that land on a member that is no object, or on none, are free of nulls. */
  predicate LandsNullFree(dst: map<string, Json>, src: map<string, Json>)
    decreases Obj(src), 0
  {
    forall k :: k in src ==> LandsMember(if k in dst then dst[k] else Null, src[k])
  }

  predicate LandsMember(dstVal: Json, srcVal: Json)
    decreases srcVal, 1
  {
    srcVal.Obj? ==> if dstVal.Obj? then LandsNullFree(dstVal.members, srcVal.members) else NullFree(srcVal)
  }

  lemma {:induction false} ErasedIffNullFree(j: Json)
    ensures NullFree(j) <==> Erased(j) == j
  {
    if j.Obj? {
      var m, e := j.members, Erased(j).members;
      forall k | k in m
        ensures NullFree(m[k]) <==> Erased(m[k]) == m[k]
      {
        ErasedIffNullFree(m[k]);
      }
      if NullFree(j) {
        assert e == m;
      }
      if e == m {
        forall k | k in m
          ensures !m[k].Null? && NullFree(m[k])
        {
          assert k in e && e[k] == Erased(m[k]);
        }
      }
    }
  }

  /** A patch on something that is no object is the patch without its nulls. */
  lemma {:induction false} PatchOnNothing(target: Json, patch: Json)
    requires !target.Obj?
    ensures Patched(target, patch) == Erased(patch)
    decreases patch
  {
    if patch.Obj? {
      var p := patch.members;
      forall k | k in p && !p[k].Null?
        ensures Patched(Null, p[k]) == Erased(p[k])
      {
        PatchOnNothing(Null, p[k]);
      }
      assert Patched(target, patch).members == Erased(patch).members;
    }
  }

  lemma NotNull(dst: map<string, Json>, src: map<string, Json>, k: string)
    requires NullFree(Obj(dst))
    ensures k in Merged(dst, src) ==> !Merged(dst, src)[k].Null?
  {
  }

  /** For a target without null members: the merge, its nulls erased, is the RFC's result, whatever the patch. */
  lemma {:induction false} ErasedMergeIsPatch(dst: map<string, Json>, src: map<string, Json>)
    requires NullFree(Obj(dst))
    ensures Erased(Obj(Merged(dst, src))) == Patched(Obj(dst), Obj(src))
    decreases Obj(src), 0
  {
    var m := Merged(dst, src);
    var e, p := Erased(Obj(m)).members, Patched(Obj(dst), Obj(src)).members;
    forall k
      ensures k in e <==> k in p
    {
      NotNull(dst, src, k);
    }
    forall k | k in e
      ensures e[k] == p[k]
    {
      if k !in src {
        ErasedIffNullFree(dst[k]);
      } else {
        ErasedMember(if k in dst then dst[k] else Null, src[k]);
      }
    }
    assert e == p;
  }

  lemma {:induction false} ErasedMember(dstVal: Json, srcVal: Json)
    requires NullFree(dstVal)
    ensures Erased(MergedMember(dstVal, srcVal)) == Patched(dstVal, srcVal)
    decreases srcVal, 1
  {
    if srcVal.Obj? && dstVal.Obj? {
      ErasedMergeIsPatch(dstVal.members, srcVal.members);
    } else if srcVal.Obj? {
      PatchOnNothing(dstVal, srcVal);
    }
  }

  /** For every target: the merge is the RFC's result if and only if the objects it takes over are free of nulls. */
  lemma {:induction false} MergeIsPatchIff(dst: map<string, Json>, src: map<string, Json>)
    ensures Obj(Merged(dst, src)) == Patched(Obj(dst), Obj(src)) <==> LandsNullFree(dst, src)
    decreases Obj(src), 0
  {
    var m, p := Merged(dst, src), Patched(Obj(dst), Obj(src)).members;
    forall k | k in src
      ensures var d := if k in dst then dst[k] else Null;
        MergedMember(d, src[k]) == Patched(d, src[k]) <==> LandsMember(d, src[k])
    {
      MemberIsPatchIff(if k in dst then dst[k] else Null, src[k]);
    }
    hide MergedMember, LandsMember;
    if LandsNullFree(dst, src) {
      assert m == p;
    }
    if m == p {
      forall k | k in src
        ensures LandsMember(if k in dst then dst[k] else Null, src[k])
      {
        if src[k].Null? {
          NullLands(if k in dst then dst[k] else Null, src[k]);
        } else {
          assert k in m && m[k] == p[k];
        }
      }
    }
  }

  /** Into an empty object, a patch object is taken over with its null; RFC 7396 leaves the null out. */
  lemma MergeCanKeepNulls(a: string, b: string)
    ensures var patch := Obj(map[b := Null]);
      && Merged(map[], map[a := patch]) == map[a := patch]
      && Patched(Obj(map[]), Obj(map[a := patch])) == Obj(map[a := Obj(map[])])
  {
    var patch := Obj(map[b := Null]);
    assert Patched(Null, patch) == Obj(map[]);
    var p := Patched(Obj(map[]), Obj(map[a := patch]));
    assert p.members.Keys == {a} && p.members[a] == Obj(map[]);
  }

  lemma NullLands(dstVal: Json, srcVal: Json)
    requires srcVal.Null?
    ensures LandsMember(dstVal, srcVal)
  {
  }

  lemma {:induction false} MemberIsPatchIff(dstVal: Json, srcVal: Json)
    ensures MergedMember(dstVal, srcVal) == Patched(dstVal, srcVal) <==> LandsMember(dstVal, srcVal)
    decreases srcVal, 1
  {
    if srcVal.Obj? && dstVal.Obj? {
      MergeIsPatchIff(dstVal.members, srcVal.members);
    } else if srcVal.Obj? {
      PatchOnNothing(dstVal, srcVal);
      ErasedIffNullFree(srcVal);
    }
  }

  /** Merging a patch into itself erases its nulls. */
  lemma {:induction false} MergeIntoItself(j: Json)
    ensures j.Obj? ==> Obj(Merged(j.members, j.members)) == Erased(j)
    ensures MergedMember(j, j) == Erased(j)
  {
    if j.Obj? {
      var x := j.members;
      forall k | k in x
        ensures MergedMember(x[k], x[k]) == Erased(x[k])
      {
        MergeIntoItself(x[k]);
      }
      assert Merged(x, x) == Erased(j).members;
    }
  }

  /** For every target and every patch, merging twice gives the RFC's result. */
  lemma {:induction false} TwiceIsPatch(dst: map<string, Json>, src: map<string, Json>)
    ensures Obj(Merged(Merged(dst, src), src)) == Patched(Obj(dst), Obj(src))
    decreases Obj(src), 0
  {
    var once := Merged(dst, src);
    var twice, p := Merged(once, src), Patched(Obj(dst), Obj(src)).members;
    forall k
      ensures k in twice <==> k in p
    {
    }
    forall k | k in p
      ensures twice[k] == p[k]
    {
      if k in src {
        TwiceMember(if k in dst then dst[k] else Null, src[k]);
      }
    }
    assert twice == p;
  }

  lemma {:induction false} TwiceMember(dstVal: Json, srcVal: Json)
    ensures MergedMember(MergedMember(dstVal, srcVal), srcVal) == Patched(dstVal, srcVal)
    decreases srcVal, 1
  {
    if srcVal.Obj? && dstVal.Obj? {
      TwiceIsPatch(dstVal.members, srcVal.members);
    } else if srcVal.Obj? {
      PatchOnNothing(dstVal, srcVal);
      MergeIntoItself(srcVal);
    }
  }

  /** Merging twice is merging once if and only if the objects taken over are free of nulls. */
  lemma MergeTwiceIff(dst: map<string, Json>, src: map<string, Json>)
    ensures Merged(Merged(dst, src), src) == Merged(dst, src) <==> LandsNullFree(dst, src)
  {
    TwiceIsPatch(dst, src);
    MergeIsPatchIff(dst, src);
    hide Merged, Patched, LandsNullFree;
  }
}
