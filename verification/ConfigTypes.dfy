/** Variable substitution (config_types.h), rewriting the string in place. */
module ConfigTypes {
  import opened Text
  import opened Wrappers

  const PLACEHOLDER := "%(program_name)s"

  /** The pieces of the input between placeholders, found from left to right. */
  function Split(s: string): (parts: seq<string>)
    ensures parts != []
    decreases |s|
  {
    match Find(s, PLACEHOLDER, 0)
    case None => [s]
    case Some(k) => [s[..k]] + Split(s[k + 16..])
  }

  function Join(parts: seq<string>, separator: string): string
    requires parts != []
  {
    if |parts| == 1 then parts[0] else parts[0] + separator + Join(parts[1..], separator)
  }

  /** `Split` finds every placeholder: joining with the placeholder gives the input back, and no piece
      has one left. */
  lemma {:induction false} SplitIsComplete(s: string)
    ensures Join(Split(s), PLACEHOLDER) == s
    ensures forall i, k: nat :: 0 <= i < |Split(s)| ==> !OccursAt(Split(s)[i], PLACEHOLDER, k)
    decreases |s|
  {
    FindFirst(s, PLACEHOLDER, 0);
    match Find(s, PLACEHOLDER, 0)
    case None =>
    case Some(k) =>
      SplitIsComplete(s[k + 16..]);
      assert Split(s)[1..] == Split(s[k + 16..]);
      assert s == s[..k] + PLACEHOLDER + s[k + 16..];
      forall i, j: nat | 0 <= i < |Split(s)|
        ensures !OccursAt(Split(s)[i], PLACEHOLDER, j)
      {
        if i == 0 {
          if OccursAt(s[..k], PLACEHOLDER, j) {
            assert s[..k][j..j + 16] == s[j..j + 16];
            assert OccursAt(s, PLACEHOLDER, j);
          }
        } else {
          assert Split(s)[i] == Split(s[k + 16..])[i - 1];
        }
      }
  }

  /** Searching on behind what has been done is searching what is left. */
  lemma FindInRest(done: string, rest: string)
    ensures match Find(rest, PLACEHOLDER, 0)
      case None => Find(done + rest, PLACEHOLDER, |done|) == None
      case Some(k) => Find(done + rest, PLACEHOLDER, |done|) == Some(|done| + k)
  {
    var all := done + rest;
    forall k: nat
      ensures OccursAt(rest, PLACEHOLDER, k) <==> OccursAt(all, PLACEHOLDER, |done| + k)
    {
      if k + 16 <= |rest| {
        assert all[|done| + k..|done| + k + 16] == rest[k..k + 16];
      }
    }
    FindFirst(rest, PLACEHOLDER, 0);
    match Find(rest, PLACEHOLDER, 0)
    case None =>
      forall j | |done| <= j
        ensures !OccursAt(all, PLACEHOLDER, j)
      {
        assert !OccursAt(rest, PLACEHOLDER, j - |done|);
      }
      FindNone(all, PLACEHOLDER, |done|);
    case Some(k) =>
      forall j | |done| <= j < |done| + k
        ensures !OccursAt(all, PLACEHOLDER, j)
      {
        assert !OccursAt(rest, PLACEHOLDER, j - |done|);
      }
      FindIs(all, PLACEHOLDER, |done|, |done| + k);
  }

  /** Replaces every placeholder of the input, and none that the name itself may bring in; the loop
      ends because what has not been scanned shrinks by at least sixteen characters each time. */
  method SubstituteVariables(input: string, name: string) returns (result: string)
    ensures result == Join(Split(input), name)
  {
    result := input;
    var pos: nat := 0;
    ghost var rest := input;
    assert "" + Join(Split(input), name) == Join(Split(input), name);
    while true
      invariant IsRewriting(input, name, result, pos, rest)
      decreases |rest|
    {
      var found := Find(result, PLACEHOLDER, pos);
      if found == None {
        NothingLeft(input, name, result, pos, rest);
        return;
      }
      ghost var k := found.value - pos;
      ReplaceOne(input, name, result, pos, rest, k);
      pos := found.value;
      result := result[..pos] + name + result[pos + 16..];
      pos := pos + |name|;
      rest := rest[k + 16..];
    }
  }

  /** The first `pos` characters are done, and the rest of the input is still as it was. */
  predicate IsRewriting(input: string, name: string, result: string, pos: nat, rest: string) {
    && pos <= |result| && result[pos..] == rest
    && result[..pos] + Join(Split(rest), name) == Join(Split(input), name)
  }

  lemma NothingLeft(input: string, name: string, result: string, pos: nat, rest: string)
    requires IsRewriting(input, name, result, pos, rest) && Find(result, PLACEHOLDER, pos) == None
    ensures result == Join(Split(input), name)
  {
    assert result == result[..pos] + rest;
    FindInRest(result[..pos], rest);
  }

  lemma ReplaceOne(input: string, name: string, result: string, pos: nat, rest: string, k: nat)
    requires IsRewriting(input, name, result, pos, rest) && Find(result, PLACEHOLDER, pos) == Some(pos + k)
    ensures k + 16 <= |rest| && pos + k + 16 <= |result|
    ensures IsRewriting(input, name, result[..pos + k] + name + result[pos + k + 16..], pos + k + |name|, rest[k + 16..])
  {
    var done := result[..pos];
    assert result == done + rest;
    FindInRest(done, rest);
    JoinSplit(rest, k, name);
    Regroup(done, rest[..k], name, Join(Split(rest[k + 16..]), name));
    Rewritten(done, rest, k, name);
  }

  lemma Rewritten(done: string, rest: string, k: nat, name: string)
    requires k + 16 <= |rest|
    ensures var result, pos := done + rest, |done| + k;
      var result' := result[..pos] + name + result[pos + 16..];
      && result'[..pos + |name|] == done + rest[..k] + name
      && result'[pos + |name|..] == rest[k + 16..]
  {
    var result, pos := done + rest, |done| + k;
    assert result[..pos] == done + rest[..k];
    assert result[pos + 16..] == rest[k + 16..];
  }

  lemma Regroup(a: string, b: string, c: string, d: string)
    ensures a + b + c + d == a + (b + c + d)
  {
  }

  lemma JoinSplit(s: string, k: nat, name: string)
    requires Find(s, PLACEHOLDER, 0) == Some(k)
    ensures Join(Split(s), name) == s[..k] + name + Join(Split(s[k + 16..]), name)
  {
    assert Split(s)[1..] == Split(s[k + 16..]);
  }
}
