/** The configuration override of src/raven.rs: deep_merge against the JSON Merge Patch of RFC 7396. */
module JsonMerge {

  datatype Json =
    | Null
    | Bool(b: bool)
    | Number(text: string)
    | String(s: string)
    | Array(items: seq<Json>)
    | Object(members: map<string, Json>)

  // ----- section 2 of RFC 7396 -----

  /** The members of a target, none if it is not an object. */
  function Members(target: Json): map<string, Json> {
    if target.Object? then target.members else map[]
  }

  function MemberOrNull(members: map<string, Json>, k: string): Json {
    if k in members then members[k] else Null
  }

  function MergePatch(target: Json, patch: Json): Json
    decreases patch, 1
  {
    if !patch.Object? then patch else Object(Patched(Members(target), patch, patch.members.Keys))
  }

  /** The members of a target once the names in `done` have been patched. */
  function Patched(base: map<string, Json>, patch: Json, done: set<string>): map<string, Json>
    requires patch.Object? && done <= patch.members.Keys
    decreases patch, 0
  {
    map k | k in base.Keys + done && !(k in done && patch.members[k].Null?) ::
      if k in done then MergePatch(MemberOrNull(base, k), patch.members[k]) else base[k]
  }

  // ----- the code -----

  function Merged(base: Json, over: Json): Json {
    if base.Object? && over.Object? then MergePatch(base, over) else base
  }

  /** The members of the override are visited in any order. */
  method DeepMerge(base: Json, over: Json) returns (merged: Json)
    ensures merged == Merged(base, over)
    decreases over, 0
  {
    if !base.Object? || !over.Object? {
      return base;
    }
    var members := base.members;
    var todo := over.members.Keys;
    hide Patched, MergePatch;
    StartPatched(base.members, over);
    while todo != {}
      invariant todo <= over.members.Keys
      invariant members == Patched(base.members, over, over.members.Keys - todo)
      decreases |todo|
    {
      var k :| k in todo;
      PatchOne(base.members, over, over.members.Keys - todo, k);
      assert over.members.Keys - (todo - {k}) == over.members.Keys - todo + {k};
      todo := todo - {k};
      members := MergeMember(members, k, over.members[k]);
    }
    assert over.members.Keys - {} == over.members.Keys;
    MergeObjects(base, over);
    merged := Object(members);
  }

  /** One pass of the loop: null deletes, an object merges into an object, anything else replaces. */
  method MergeMember(members: map<string, Json>, k: string, v: Json) returns (out: map<string, Json>)
    ensures out == if v.Null? then members - {k} else members[k := MergePatch(MemberOrNull(members, k), v)]
    decreases v, 1
  {
    if v.Null? {
      out := members - {k};
    } else if v.Object? {
      var entry := if k in members then members[k] else Object(map[]);
      if !entry.Object? {
        entry := Object(map[]);
      }
      assert Members(entry) == Members(MemberOrNull(members, k));
      entry := DeepMerge(entry, v);
      out := members[k := entry];
    } else {
      out := members[k := v];
    }
  }

  lemma StartPatched(base: map<string, Json>, over: Json)
    requires over.Object?
    ensures Patched(base, over, over.members.Keys - over.members.Keys) == base
  {
  }

  lemma MergeObjects(base: Json, over: Json)
    requires base.Object? && over.Object?
    ensures Merged(base, over) == Object(Patched(base.members, over, over.members.Keys))
  {
  }

  /** Patching one more name only changes that member. */
  lemma PatchOne(base: map<string, Json>, patch: Json, done: set<string>, k: string)
    requires patch.Object? && done <= patch.members.Keys && k in patch.members && k !in done
    ensures var now, v := Patched(base, patch, done), patch.members[k];
            && MemberOrNull(now, k) == MemberOrNull(base, k) && (k in now <==> k in base)
            && Patched(base, patch, done + {k}) ==
                 if v.Null? then now - {k} else now[k := MergePatch(MemberOrNull(base, k), v)]
  {
  }

  // ----- properties -----

  lemma PatchedMember(target: Json, patch: Json, k: string)
    requires patch.Object?
    ensures var out := MergePatch(target, patch).members;
            if k in patch.members then
              (k in out <==> !patch.members[k].Null?) &&
              (k in out ==> out[k] == MergePatch(MemberOrNull(Members(target), k), patch.members[k]))
            else
              (k in out <==> k in Members(target)) && (k in out ==> out[k] == Members(target)[k])
  {
  }

  /** Applying the same patch again changes nothing. */
  lemma {:induction false} PatchIsIdempotent(target: Json, patch: Json)
    ensures MergePatch(MergePatch(target, patch), patch) == MergePatch(target, patch)
    decreases patch
  {
    if !patch.Object? {
    } else {
      var once := MergePatch(target, patch);
      var twice := MergePatch(once, patch);
      forall k
        ensures k in twice.members <==> k in once.members
        ensures k in once.members ==> twice.members[k] == once.members[k]
      {
        PatchedMember(target, patch, k);
        PatchedMember(once, patch, k);
        if k in patch.members {
          PatchIsIdempotent(MemberOrNull(Members(target), k), patch.members[k]);
        }
      }
      assert twice.members == once.members;
    }
  }

  lemma MergeIsIdempotent(base: Json, over: Json)
    ensures Merged(Merged(base, over), over) == Merged(base, over)
  {
    if base.Object? && over.Object? {
      PatchIsIdempotent(base, over);
    }
  }

  /** The override is RFC 7396's MergePatch exactly when both sides are objects, or when the override is
      not an object and already equals the base. */
  lemma MergesLikeRfc7396(base: Json, over: Json)
    ensures Merged(base, over) == MergePatch(base, over)
       <==> (base.Object? && over.Object?) || (!over.Object? && base == over)
  {
  }

  /** The merge member by member: what the override does not name stays, null deletes, an object merges into the
      object that is there or else into an empty one, and anything else replaces. */
  lemma MergesMembersExactly(base: Json, over: Json, k: string)
    requires base.Object? && over.Object?
    ensures var out, b, o := Merged(base, over), base.members, over.members;
            && out.Object?
            && (k !in o ==> (k in out.members <==> k in b) && (k in b ==> out.members[k] == b[k]))
            && (k in o && o[k].Null? ==> k !in out.members)
            && (k in o && !o[k].Null? ==> k in out.members)
            && (k in o && !o[k].Null? && !o[k].Object? ==> out.members[k] == o[k])
            && (k in o && o[k].Object? ==>
                  out.members[k] == Merged(if k in b && b[k].Object? then b[k] else Object(map[]), o[k]))
  {
    PatchedMember(base, over, k);
    var o := over.members;
    if k in o && o[k].Object? {
      var b := MemberOrNull(base.members, k);
      if !b.Object? {
        PatchOfNothing(b, o[k]);
      }
    }
  }

  /** Patching what is not an object is patching an empty one. */
  lemma PatchOfNothing(target: Json, patch: Json)
    requires !target.Object? && patch.Object?
    ensures MergePatch(target, patch) == MergePatch(Object(map[]), patch)
  {
    assert Members(target) == Members(Object(map[]));
  }

  /** Unless both are objects the override has no effect. */
  lemma MergesNothingElse(base: Json, over: Json)
    requires !base.Object? || !over.Object?
    ensures Merged(base, over) == base
  {
  }
}
