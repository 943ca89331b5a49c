/** Node conditions as the Kubernetes exporter writes them: naming (pkg/exporters/kubernetes/types.go) and the
    two write operations on the node (pkg/exporters/kubernetes/client.go). */
module NodeConditions {
  import opened MonitorTypes

  /** `transition` is LastTransitionTime, 0 when unset. */
  datatype NodeCondition = NodeCondition(kind: string, status: ConditionStatus, transition: int, reason: string, message: string)

  type Conditions = map<string, NodeCondition>

  const PREFIX := "NodeDoctor"
  const HEARTBEAT := "NodeDoctorHealthy"

  predicate Owned(kind: string) {
    PREFIX <= kind
  }

  function OwnedPart(cs: Conditions): Conditions {
    map k | k in cs && Owned(k) :: cs[k]
  }

  function ForeignPart(cs: Conditions): Conditions {
    map k | k in cs && !Owned(k) :: cs[k]
  }

  /** Equality up to the transition time. */
  predicate SameCondition(a: NodeCondition, b: NodeCondition) {
    a.kind == b.kind && a.status == b.status && a.reason == b.reason && a.message == b.message
  }

  // ----- Condition names -----

  predicate Lower(c: char) { 'a' <= c <= 'z' }
  predicate UpperOrDigit(c: char) { 'A' <= c <= 'Z' || '0' <= c <= '9' }

  function ToUpper(c: char): char
    requires Lower(c)
  {
    (c as int - 32) as char
  }

  /** Letters and digits only, a letter after a dropped character capitalised. `up` is the makeUpper flag. */
  function Sanitized(s: string, up: bool): string {
    if s == [] then ""
    else if Lower(s[0]) then [if up then ToUpper(s[0]) else s[0]] + Sanitized(s[1..], false)
    else if UpperOrDigit(s[0]) then [s[0]] + Sanitized(s[1..], false)
    else Sanitized(s[1..], true)
  }

  function ConditionType(s: string): string {
    if Owned(s) then s else PREFIX + Sanitized(s, true)
  }

  predicate Kept(c: char) { Lower(c) || UpperOrDigit(c) }

  /** How many characters of `s` are kept. */
  function KeptCount(s: string): nat {
    if s == [] then 0 else (if Kept(s[0]) then 1 else 0) + KeptCount(s[1..])
  }

  /** Character `i` is the first of a word; `up` says whether the string starts one. */
  predicate StartsWord(s: string, up: bool, i: nat)
    requires i < |s|
  {
    if i == 0 then up else !Kept(s[i - 1])
  }

  /** What becomes of a kept character: the first letter of a word is capitalised and nothing else changes. */
  function Written(s: string, up: bool, i: nat): char
    requires i < |s|
  {
    if Lower(s[i]) && StartsWord(s, up, i) then ToUpper(s[i]) else s[i]
  }

  /** The sanitised name has one character for each kept one, in order, each written as its place in its word says. */
  lemma {:induction false} SanitizedAt(s: string, up: bool, i: nat)
    requires i < |s| && Kept(s[i])
    ensures |Sanitized(s, up)| == KeptCount(s) && KeptCount(s[..i]) < KeptCount(s)
    ensures Sanitized(s, up)[KeptCount(s[..i])] == Written(s, up, i)
    decreases |s|
  {
    SanitizedLength(s, up);
    if i > 0 {
      var rest, up' := s[1..], !Kept(s[0]);
      assert s[..i][1..] == rest[..i - 1];
      SanitizedAt(rest, up', i - 1);
      assert Written(rest, up', i - 1) == Written(s, up, i);
    }
  }

  lemma {:induction false} SanitizedLength(s: string, up: bool)
    ensures |Sanitized(s, up)| == KeptCount(s)
    decreases |s|
  {
    if s != [] {
      SanitizedLength(s[1..], false);
      SanitizedLength(s[1..], true);
    }
  }

  /** Exactly the letters and digits are kept, in order, and exactly the first letter of each word is capitalised. */
  method SanitizeConditionType(s: string) returns (out: string)
    ensures out == Sanitized(s, true)
    ensures |out| == KeptCount(s)
    ensures forall i :: 0 <= i < |s| && Kept(s[i]) ==>
              KeptCount(s[..i]) < |out| && out[KeptCount(s[..i])] == Written(s, true, i)
  {
    out := "";
    var makeUpper := true;
    for i := 0 to |s|
      invariant out + Sanitized(s[i..], makeUpper) == Sanitized(s, true)
    {
      var c := s[i];
      assert s[i..][1..] == s[i + 1..];
      if Lower(c) {
        out := out + [if makeUpper then ToUpper(c) else c];
        makeUpper := false;
      } else if UpperOrDigit(c) {
        out := out + [c];
        makeUpper := false;
      } else {
        makeUpper := true;
      }
    }
    SanitizedLength(s, true);
    forall i | 0 <= i < |s| && Kept(s[i]) ensures KeptCount(s[..i]) < |out| && out[KeptCount(s[..i])] == Written(s, true, i) {
      SanitizedAt(s, true, i);
    }
  }

  ghost predicate Clean(s: string, up: bool) {
    forall i :: 0 <= i < |s| ==> UpperOrDigit(s[i]) || (Lower(s[i]) && (i == 0 ==> !up))
  }

  lemma {:induction false} SanitizedClean(s: string, up: bool)
    ensures Clean(Sanitized(s, up), up)
    decreases |s|
  {
    if s != [] {
      SanitizedClean(s[1..], false);
      SanitizedClean(s[1..], true);
    }
  }

  lemma {:induction false} CleanUnchanged(s: string, up: bool)
    requires Clean(s, up)
    ensures Sanitized(s, up) == s
    decreases |s|
  {
    if s != [] {
      CleanUnchanged(s[1..], false);
      assert [s[0]] + s[1..] == s;
    }
  }

  /** Sanitising is idempotent, and a condition type is always owned and a fixed point of the naming. */
  lemma {:induction false} ConditionTypeStable(s: string)
    ensures Sanitized(Sanitized(s, true), true) == Sanitized(s, true)
    ensures Owned(ConditionType(s)) && ConditionType(ConditionType(s)) == ConditionType(s)
  {
    SanitizedClean(s, true);
    CleanUnchanged(Sanitized(s, true), true);
  }

  /** The type written for an unprefixed name is the prefix and the name's kept characters, each as its place in its word says. */
  lemma {:induction false} ConditionTypeAt(s: string, i: nat)
    requires !Owned(s) && i < |s| && Kept(s[i])
    ensures |ConditionType(s)| == |PREFIX| + KeptCount(s) && KeptCount(s[..i]) < KeptCount(s)
    ensures ConditionType(s)[|PREFIX| + KeptCount(s[..i])] == Written(s, true, i)
  {
    SanitizedAt(s, true, i);
  }

  // ----- Writes to the node -----

  /** How a write ends: done, failed, or failed after taking effect (a lost reply). */
  datatype Api = Done | Failed | LostReply

  function AfterRemove(node: Conditions, kinds: set<string>, api: Api): Conditions {
    if api == Failed then node else map k | k in node && !(k in kinds && Owned(k)) :: node[k]
  }

  predicate RemoveOk(kinds: set<string>, api: Api) {
    api == Done || forall k :: k in kinds ==> !Owned(k)
  }

  function AfterPatch(node: Conditions, cs: Conditions, api: Api): Conditions {
    if api == Failed then node else node + cs
  }

  method OwnedKinds(kinds: set<string>) returns (removeSet: set<string>)
    ensures removeSet == set k | k in kinds && Owned(k)
  {
    removeSet := {};
    var todo := kinds;
    while todo != {}
      invariant todo <= kinds && removeSet == set k | k in kinds && k !in todo && Owned(k)
      decreases |todo|
    {
      var k :| k in todo;
      todo := todo - {k};
      if PREFIX <= k {
        removeSet := removeSet + {k};
      }
    }
  }

  method FilterOut(node: Conditions, removeSet: set<string>) returns (kept: Conditions)
    ensures kept == map k | k in node && k !in removeSet :: node[k]
  {
    kept := map[];
    var left := node.Keys;
    while left != {}
      invariant left <= node.Keys
      invariant kept == map k | k in node && k !in left && k !in removeSet :: node[k]
      decreases |left|
    {
      var k :| k in left;
      left := left - {k};
      if k !in removeSet {
        kept := kept[k := node[k]];
      }
    }
  }

  class K8sClient {
    var node: Conditions

    /** Removes the owned ones among `kinds` and refuses the rest. */
    method RemoveNodeConditions(kinds: set<string>, api: Api) returns (ok: bool)
      modifies this
      ensures ok <==> RemoveOk(kinds, api)
      ensures node == AfterRemove(old(node), kinds, api)
    {
      hide Owned;
      var removeSet := OwnedKinds(kinds);
      if removeSet == {} {
        assert forall k :: k in kinds && Owned(k) ==> k in removeSet;
        return true;
      }
      assert !RemoveOk(kinds, Failed) by {
        var k :| k in removeSet;
        assert k in kinds && Owned(k);
      }
      if api != Failed {
        node := FilterOut(node, removeSet);
      }
      return api == Done;
    }

    method PatchNodeConditions(cs: Conditions, api: Api) returns (ok: bool)
      modifies this
      ensures ok <==> api == Done || cs == map[]
      ensures node == AfterPatch(old(node), cs, api)
    {
      if cs == map[] {
        assert node + cs == node;
        return true;
      }
      if api != Failed {
        node := node + cs;
      }
      return api == Done;
    }
  }
}
