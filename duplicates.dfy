/** The two duplicate passes over the verdict list (`check_exact_duplicates`,
    `check_stereoisomer_duplicates`). Each groups the eligible verdicts by a key, in order
    of first occurrence, numbers the groups with more than one member 1, 2, ..., keeps the
    first member and marks the others. */
module Duplicates {
  import opened Cells
  import opened Verdicts

  datatype Pass = Exact | Stereo

  /** The key a verdict is grouped under, None when the pass ignores it: the exact pass takes
      validated verdicts by their truthy InChIKey, the stereo pass non-rejected verdicts by
      their truthy 14-character key. */
  function Key(pass: Pass, v: Verdict): (k: Option<string>)
    ensures k.Some? ==> k.value != []
  {
    match pass
    case Exact => if v.status == Validated && Present(v.validatedInchikey) then v.validatedInchikey else None
    case Stereo =>
      if v.status != Rejected && Present(v.validatedCanonicalInchikey14) then v.validatedCanonicalInchikey14 else None
  }

  function Keys(pass: Pass, vs: seq<Verdict>): (keys: seq<Option<string>>)
    ensures |keys| == |vs| && forall i :: 0 <= i < |vs| ==> keys[i] == Key(pass, vs[i])
  {
    seq(|vs|, i requires 0 <= i < |vs| => Key(pass, vs[i]))
  }

  /** The positions below `n` holding key `k`, in increasing order. */
  function OccUpTo(keys: seq<Option<string>>, k: string, n: nat): (r: seq<nat>)
    requires n <= |keys|
    ensures forall x :: 0 <= x < |r| ==> r[x] < n && keys[r[x]] == Some(k)
    ensures forall j {:trigger j in r} :: 0 <= j < n && keys[j] == Some(k) ==> j in r
    ensures forall a, b :: 0 <= a < b < |r| ==> r[a] < r[b]
  {
    if n == 0 then []
    else OccUpTo(keys, k, n - 1) + (if keys[n - 1] == Some(k) then [n - 1] else [])
  }

  /** The members of group `k`: every position holding it. */
  function Occ(keys: seq<Option<string>>, k: string): seq<nat> {
    OccUpTo(keys, k, |keys|)
  }

  /** The distinct keys below `n`, in order of first occurrence (a dict's insertion order). */
  function OrderUpTo(keys: seq<Option<string>>, n: nat): (r: seq<string>)
    requires n <= |keys|
    ensures forall a, b :: 0 <= a < b < |r| ==> r[a] != r[b]
    ensures forall k :: k in r <==> exists j :: 0 <= j < n && keys[j] == Some(k)
  {
    if n == 0 then []
    else
      var o := OrderUpTo(keys, n - 1);
      if keys[n - 1].Some? && keys[n - 1].value !in o then o + [keys[n - 1].value] else o
  }

  function Order(keys: seq<Option<string>>): seq<string> {
    OrderUpTo(keys, |keys|)
  }

  /** Where `k` sits in `o`. */
  function Pos(o: seq<string>, k: string): (p: nat)
    requires k in o
    ensures p < |o| && o[p] == k
  {
    if o[0] == k then 0 else 1 + Pos(o[1..], k)
  }

  /** How many of the first `p` groups of `o` have more than one member. */
  function MultiCount(keys: seq<Option<string>>, o: seq<string>, p: nat): (c: nat)
    requires p <= |o|
    ensures c <= p
  {
    if p == 0 then 0
    else MultiCount(keys, o, p - 1) + (if |Occ(keys, o[p - 1])| > 1 then 1 else 0)
  }

  /** A member's part in its group: the group's number and whether it comes first. */
  datatype Role = Role(group: nat, first: bool)

  /** The role of position `i`, None when it is not in a group of two or more. */
  function RoleOf(keys: seq<Option<string>>, i: nat): Option<Role>
    requires i < |keys|
  {
    if keys[i].Some? && |Occ(keys, keys[i].value)| > 1 then
      var k := keys[i].value;
      var o := Order(keys);
      assert k in o;
      Some(Role(1 + MultiCount(keys, o, Pos(o, k)), i == Occ(keys, k)[0]))
    else None
  }

  /** What a pass does to a member: the exact pass numbers the first member and rejects the
      rest as exact duplicates; the stereo pass numbers the first and marks the rest as
      stereo duplicates, leaving their reasons alone. */
  function Mark(pass: Pass, v: Verdict, r: Role): Verdict {
    match pass
    case Exact =>
      if r.first then v.(exactDuplicateGroup := Some(r.group))
      else v.(status := Rejected, rejectionReason := Some(ExactDuplicate), exactDuplicateGroup := Some(r.group))
    case Stereo =>
      if r.first then v.(stereoDuplicateGroup := Some(r.group))
      else v.(status := StereoDuplicate, stereoDuplicateGroup := Some(r.group))
  }

  /** The list after a pass: same length, same order, members of groups marked, all else as it was. */
  function Apply(pass: Pass, vs: seq<Verdict>): (r: seq<Verdict>)
    ensures |r| == |vs|
    ensures forall i :: 0 <= i < |vs| ==> r[i] == match RoleOf(Keys(pass, vs), i)
                                                  case None => vs[i]
                                                  case Some(role) => Mark(pass, vs[i], role)
  {
    var keys := Keys(pass, vs);
    seq(|vs|, i requires 0 <= i < |vs| =>
      match RoleOf(keys, i)
      case None => vs[i]
      case Some(role) => Mark(pass, vs[i], role))
  }

  // ---------------------------------------------------------------- lemmas: groups

  /** The members of a group are exactly the positions holding its key. */
  lemma OccMembers(keys: seq<Option<string>>, k: string, j: nat)
    requires j < |keys|
    ensures j in Occ(keys, k) <==> keys[j] == Some(k)
  {
  }

  /** The first member of a group holds its earliest occurrence. */
  lemma OccLeast(keys: seq<Option<string>>, k: string, j: nat)
    requires j < |keys|
    ensures keys[j] == Some(k) ==> |Occ(keys, k)| > 0 && Occ(keys, k)[0] <= j
  {
    if keys[j] == Some(k) {
      var occ := Occ(keys, k);
      assert j in occ;
      var x :| 0 <= x < |occ| && occ[x] == j;
      assert x == 0 || occ[0] < occ[x];
    }
  }

  /** A position is first in its group exactly when no earlier position holds its key. */
  lemma FirstIsFirstOccurrence(keys: seq<Option<string>>, i: nat)
    requires i < |keys| && RoleOf(keys, i).Some?
    ensures RoleOf(keys, i).value.first <==> forall j :: 0 <= j < i ==> keys[j] != keys[i]
  {
    var k := keys[i].value;
    var occ := Occ(keys, k);
    OccLeast(keys, k, i);
    forall j | 0 <= j < i ensures occ[0] == i ==> keys[j] != keys[i] {
      OccLeast(keys, k, j);
    }
    assert keys[occ[0]] == Some(k);
  }

  lemma {:induction false} MultiCountMonotone(keys: seq<Option<string>>, o: seq<string>, p: nat, q: nat)
    requires p < q <= |o| && |Occ(keys, o[p])| > 1
    ensures MultiCount(keys, o, p) < MultiCount(keys, o, q)
  {
    if q > p + 1 {
      MultiCountMonotone(keys, o, p, q - 1);
    }
  }

  /** Two grouped positions share a number exactly when they share a key. */
  lemma SameGroupSameKey(keys: seq<Option<string>>, i: nat, j: nat)
    requires i < |keys| && j < |keys| && RoleOf(keys, i).Some? && RoleOf(keys, j).Some?
    ensures RoleOf(keys, i).value.group == RoleOf(keys, j).value.group <==> keys[i] == keys[j]
  {
    var o := Order(keys);
    var ki, kj := keys[i].value, keys[j].value;
    assert ki in o && kj in o;
    var p, q := Pos(o, ki), Pos(o, kj);
    if p < q {
      MultiCountMonotone(keys, o, p, q);
    } else if q < p {
      MultiCountMonotone(keys, o, q, p);
    }
  }

  /** Keys enter the order in order of first occurrence: every occurrence of a later key
      comes after some occurrence of an earlier one. */
  lemma {:induction false} OrderFollowsFirstOccurrence(keys: seq<Option<string>>, n: nat, p: nat, q: nat, j: nat)
    requires n <= |keys| && p < q < |OrderUpTo(keys, n)|
    requires j < n && keys[j] == Some(OrderUpTo(keys, n)[q])
    ensures exists i :: 0 <= i < j && keys[i] == Some(OrderUpTo(keys, n)[p])
  {
    var o := OrderUpTo(keys, n);
    var o' := OrderUpTo(keys, n - 1);
    if q < |o'| {
      assert o[p] == o'[p] && o[q] == o'[q];
      if j < n - 1 {
        OrderFollowsFirstOccurrence(keys, n - 1, p, q, j);
      } else {
        assert o'[q] in o';
        var j2 :| 0 <= j2 < n - 1 && keys[j2] == Some(o'[q]);
        OrderFollowsFirstOccurrence(keys, n - 1, p, q, j2);
      }
    } else {
      assert o[p] == o'[p] && o'[p] in o';
    }
  }

  /** Groups are numbered in the order of their first members. */
  lemma GroupsNumberedInOrder(keys: seq<Option<string>>, i: nat, j: nat)
    requires i < |keys| && j < |keys| && RoleOf(keys, i).Some? && RoleOf(keys, j).Some?
    ensures RoleOf(keys, i).value.group < RoleOf(keys, j).value.group <==>
            Occ(keys, keys[i].value)[0] < Occ(keys, keys[j].value)[0]
  {
    var o := Order(keys);
    var ki, kj := keys[i].value, keys[j].value;
    assert ki in o && kj in o;
    var p, q := Pos(o, ki), Pos(o, kj);
    var fi, fj := Occ(keys, ki)[0], Occ(keys, kj)[0];
    assert keys[fi] == Some(ki) && keys[fj] == Some(kj);
    if p < q {
      MultiCountMonotone(keys, o, p, q);
      OrderFollowsFirstOccurrence(keys, |keys|, p, q, fj);
      var x :| 0 <= x < fj && keys[x] == Some(ki);
      OccLeast(keys, ki, x);
    } else if q < p {
      MultiCountMonotone(keys, o, q, p);
      OrderFollowsFirstOccurrence(keys, |keys|, q, p, fi);
      var x :| 0 <= x < fi && keys[x] == Some(kj);
      OccLeast(keys, kj, x);
    }
  }

  /** Exactly one member of each group is first. */
  lemma OneFirst(keys: seq<Option<string>>, i: nat, j: nat)
    requires i < |keys| && j < |keys| && RoleOf(keys, i).Some? && RoleOf(keys, j).Some?
    requires keys[i] == keys[j] && RoleOf(keys, i).value.first && RoleOf(keys, j).value.first
    ensures i == j
  {
  }

  /** No earlier occurrence, no members yet. */
  lemma {:induction false} OccEmpty(keys: seq<Option<string>>, k: string, n: nat)
    requires n <= |keys| && forall j :: 0 <= j < n ==> keys[j] != Some(k)
    ensures OccUpTo(keys, k, n) == []
  {
    if n > 0 {
      OccEmpty(keys, k, n - 1);
    }
  }

  lemma {:induction false} PosOfDistinct(o: seq<string>, p: nat)
    requires p < |o| && forall a, b :: 0 <= a < b < |o| ==> o[a] != o[b]
    ensures Pos(o, o[p]) == p
  {
    if p > 0 {
      assert o[0] != o[p];
      assert o[1..][p - 1] == o[p];
      PosOfDistinct(o[1..], p - 1);
    }
  }

  /** The role of the `x`-th member of the `p`-th group of two or more. */
  lemma RoleInGroup(keys: seq<Option<string>>, p: nat, x: nat)
    requires p < |Order(keys)| && x < |Occ(keys, Order(keys)[p])| && |Occ(keys, Order(keys)[p])| > 1
    ensures var members := Occ(keys, Order(keys)[p]);
      members[x] < |keys| && RoleOf(keys, members[x]) == Some(Role(1 + MultiCount(keys, Order(keys), p), x == 0))
  {
    var o := Order(keys);
    var members := Occ(keys, o[p]);
    PosOfDistinct(o, p);
    assert keys[members[x]] == Some(o[p]);
    assert x != 0 ==> members[0] < members[x];
  }

  // ---------------------------------------------------------------- lemmas: the passes

  /** Once the exact pass has run, no two validated verdicts share a truthy InChIKey. */
  lemma ExactLeavesDistinctKeys(vs: seq<Verdict>, i: nat, j: nat)
    requires i < |vs| && j < |vs|
    requires var r := Apply(Exact, vs); Key(Exact, r[i]).Some? && Key(Exact, r[j]) == Key(Exact, r[i])
    ensures i == j
  {
    var keys := Keys(Exact, vs);
    var r := Apply(Exact, vs);
    assert keys[i] == Key(Exact, r[i]) && keys[j] == Key(Exact, r[j]);
    var occ := Occ(keys, keys[i].value);
    assert i in occ && j in occ;
    if |occ| > 1 {
      OneFirst(keys, i, j);
    }
  }

  /** Running the exact pass a second time changes nothing. */
  lemma ExactIdempotent(vs: seq<Verdict>)
    ensures Apply(Exact, Apply(Exact, vs)) == Apply(Exact, vs)
  {
    var r := Apply(Exact, vs);
    var keys := Keys(Exact, r);
    forall i | 0 <= i < |r| ensures RoleOf(keys, i).None? {
      if keys[i].Some? {
        var occ := Occ(keys, keys[i].value);
        if |occ| > 1 {
          ExactLeavesDistinctKeys(vs, occ[0], occ[1]);
        }
      }
    }
  }

  /** The stereo pass rejects nothing and un-rejects nothing, keeps every reason, and leaves
      the status of each group's first member alone. */
  lemma StereoKeepsRejections(vs: seq<Verdict>)
    ensures var r := Apply(Stereo, vs);
      forall i :: 0 <= i < |vs| ==>
        (r[i].status == Rejected <==> vs[i].status == Rejected)
        && r[i].rejectionReason == vs[i].rejectionReason
        && r[i].exactDuplicateGroup == vs[i].exactDuplicateGroup
  {
  }

  /** Neither pass touches a verdict outside a group of two or more. */
  lemma OutsideGroupsUntouched(pass: Pass, vs: seq<Verdict>, i: nat)
    requires i < |vs|
    requires Key(pass, vs[i]).None? || |Occ(Keys(pass, vs), Key(pass, vs[i]).value)| <= 1
    ensures Apply(pass, vs)[i] == vs[i]
  {
  }

  /** A pass changes nothing but status, reason and its own group field, and the first member
      of a group keeps its status. */
  lemma PassFields(pass: Pass, vs: seq<Verdict>, i: nat)
    requires i < |vs|
    ensures var r := Apply(pass, vs)[i];
      r.rowNumber == vs[i].rowNumber && r.name == vs[i].name && r.cas == vs[i].cas && r.smiles == vs[i].smiles
      && r.validatedInchikey == vs[i].validatedInchikey
      && r.validatedCanonicalInchikey14 == vs[i].validatedCanonicalInchikey14
      && r.pubchemError == vs[i].pubchemError
      && (pass == Exact ==> r.stereoDuplicateGroup == vs[i].stereoDuplicateGroup)
      && (pass == Stereo ==> r.exactDuplicateGroup == vs[i].exactDuplicateGroup)
      && (var role := RoleOf(Keys(pass, vs), i); role.Some? && role.value.first ==> r.status == vs[i].status)
  {
  }
}
