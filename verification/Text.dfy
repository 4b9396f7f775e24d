/** std::string searches used by several components. */
module Text {
  import opened Wrappers

  predicate OccursAt(s: string, needle: string, k: nat) {
    k + |needle| <= |s| && s[k..k + |needle|] == needle
  }

  /** std::string::find: the first occurrence at or after `from`. */
  function Find(s: string, needle: string, from: nat): (r: Option<nat>)
    ensures r.Some? ==> from <= r.value && r.value + |needle| <= |s|
    decreases |s| - from
  {
    if from + |needle| > |s| then None
    else if OccursAt(s, needle, from) then Some(from)
    else Find(s, needle, from + 1)
  }

  /** `Find` is the first occurrence, and None only when there is none. */
  lemma {:induction false} FindFirst(s: string, needle: string, from: nat)
    ensures match Find(s, needle, from)
      case None => forall k :: from <= k ==> !OccursAt(s, needle, k)
      case Some(r) => OccursAt(s, needle, r) && forall k :: from <= k < r ==> !OccursAt(s, needle, k)
    decreases |s| - from
  {
    if from + |needle| <= |s| && !OccursAt(s, needle, from) {
      FindFirst(s, needle, from + 1);
    }
  }

  lemma FindIs(s: string, needle: string, from: nat, k: nat)
    requires from <= k && OccursAt(s, needle, k)
    requires forall j :: from <= j < k ==> !OccursAt(s, needle, j)
    ensures Find(s, needle, from) == Some(k)
  {
    FindFirst(s, needle, from);
  }

  lemma StartsWithFirst(s: string, needle: string, k: nat)
    requires needle != "" && k < |s|
    ensures OccursAt(s, needle, k) ==> s[k] == needle[0]
  {
    if OccursAt(s, needle, k) {
      assert s[k..k + |needle|][0] == s[k];
    }
  }

  lemma FindByFirst(s: string, needle: string, k: nat)
    requires needle != "" && OccursAt(s, needle, k) && forall j :: 0 <= j < k ==> s[j] != needle[0]
    ensures Find(s, needle, 0) == Some(k)
  {
    forall j | 0 <= j < k
      ensures !OccursAt(s, needle, j)
    {
      StartsWithFirst(s, needle, j);
    }
    FindIs(s, needle, 0, k);
  }

  lemma FindNone(s: string, needle: string, from: nat)
    requires forall j :: from <= j ==> !OccursAt(s, needle, j)
    ensures Find(s, needle, from) == None
  {
    FindFirst(s, needle, from);
  }

  lemma OccursInPrefix(s: string, p: nat, needle: string, k: nat)
    requires p <= |s|
    ensures OccursAt(s[..p], needle, k) <==> OccursAt(s, needle, k) && k + |needle| <= p
  {
    if k + |needle| <= p {
      assert s[..p][k..k + |needle|] == s[k..k + |needle|];
    }
  }

  /** Searching a prefix finds the first occurrence if the prefix holds all of it. */
  lemma FindInPrefix(s: string, p: nat, needle: string)
    requires p <= |s|
    ensures Find(s[..p], needle, 0) ==
      match Find(s, needle, 0)
      case None => None
      case Some(k) => if k + |needle| <= p then Some(k) else None
  {
    FindFirst(s, needle, 0);
    match Find(s, needle, 0)
    case None =>
      forall k: nat
        ensures !OccursAt(s[..p], needle, k)
      {
        OccursInPrefix(s, p, needle, k);
      }
      FindNone(s[..p], needle, 0);
    case Some(h) =>
      forall k: nat
        ensures OccursAt(s[..p], needle, k) ==> h <= k && h + |needle| <= p
      {
        OccursInPrefix(s, p, needle, k);
      }
      if h + |needle| <= p {
        OccursInPrefix(s, p, needle, h);
        FindIs(s[..p], needle, 0, h);
      } else {
        FindNone(s[..p], needle, 0);
      }
  }
}
