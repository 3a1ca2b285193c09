/** Who may search for what: the first matching rule of each group decides. */
module AccessControl {
  import opened Prelude

  /** A rule; its pattern is any predicate on the text it is matched against. */
  datatype Rule<!T> = Rule(allow: bool, matches: T -> bool)
  datatype Acl = Acl(pvs: seq<Rule<PvName>>, clients: seq<Rule<IPv4>>)

  const DOT: Byte := 46

  /** The record part of a name: everything before the first dot. */
  function StripField(name: PvName): (r: PvName)
    ensures r <= name && DOT !in r
    ensures |r| < |name| ==> name[|r|] == DOT
  {
    if name == [] || name[0] == DOT then [] else [name[0]] + StripField(name[1..])
  }

  /** Everything before the last dot, or the whole name if it has none. */
  function StripLastField(name: PvName): (r: PvName)
    ensures DOT !in name ==> r == name
    ensures DOT in name ==> r < name && name[|r|] == DOT && DOT !in name[|r| + 1..]
  {
    if DOT !in name then name
    else if name[|name| - 1] == DOT then name[..|name| - 1]
    else
      assert DOT in name[..|name| - 1];
      StripLastField(name[..|name| - 1])
  }

  predicate FirstAt<T>(rules: seq<Rule<T>>, x: T, i: nat) {
    i < |rules| && rules[i].matches(x) && forall j | 0 <= j < i :: !rules[j].matches(x)
  }

  /** The position of the first rule of the group that matches, if any. */
  function FirstMatch<T>(rules: seq<Rule<T>>, x: T): (r: Option<nat>)
    ensures r.Some? ==> FirstAt(rules, x, r.value)
    ensures r.None? ==> forall i | 0 <= i < |rules| :: !rules[i].matches(x)
  {
    if rules == [] then None
    else if rules[0].matches(x) then Some(0)
    else
      match FirstMatch(rules[1..], x)
      case Some(i) =>
        assert forall j | 0 < j < i + 1 :: rules[1..][j - 1] == rules[j];
        Some(i + 1)
      case None =>
        assert forall i | 0 <= i < |rules[1..]| :: rules[1..][i] == rules[i + 1];
        None
  }

  /** A group denies only through its first match. */
  predicate Denies<T>(rules: seq<Rule<T>>, x: T): (denied: bool)
    ensures denied <==> exists i | 0 <= i < |rules| ::
              rules[i].matches(x) && !rules[i].allow && forall j | 0 <= j < i :: !rules[j].matches(x)
  {
    FirstMatch(rules, x).Some? && !rules[FirstMatch(rules, x).value].allow
  }

  /** No rule of the group matches, or the first one that does allows. */
  predicate Passes<T>(rules: seq<Rule<T>>, x: T) {
    || (forall i | 0 <= i < |rules| :: !rules[i].matches(x))
    || (exists i | 0 <= i < |rules| ::
          rules[i].matches(x) && rules[i].allow && forall j | 0 <= j < i :: !rules[j].matches(x))
  }

  predicate Allowed(acl: Acl, name: PvName, client: IPv4): (allowed: bool)
    ensures allowed <==> Passes(acl.pvs, StripLastField(name)) && Passes(acl.clients, client)
  {
    !Denies(acl.pvs, StripLastField(name)) && !Denies(acl.clients, client)
  }

  /** One group of rules, as the loops of checkAccessControl run through it. */
  method RunRules<T>(rules: seq<Rule<T>>, x: T) returns (denied: bool)
    ensures denied == Denies(rules, x)
  {
    for i := 0 to |rules|
      invariant forall j | 0 <= j < i :: !rules[j].matches(x)
    {
      if rules[i].matches(x) {
        assert FirstAt(rules, x, i);
        return !rules[i].allow;
      }
    }
    return false;
  }

  method CheckAccessControl(acl: Acl, name: PvName, client: IPv4) returns (ok: bool)
    ensures ok == Allowed(acl, name, client)
    ensures ok <==> Passes(acl.pvs, StripLastField(name)) && Passes(acl.clients, client)
  {
    var pvname := name;
    var pos := |name|;
    while pos > 0 && name[pos - 1] != DOT
      invariant 0 <= pos <= |name| && DOT !in name[pos..]
    {
      assert name[pos - 1..] == [name[pos - 1]] + name[pos..];
      pos := pos - 1;
    }
    if pos > 0 {
      pvname := name[..pos - 1];
      LastDot(name, pos - 1);
    } else {
      assert name[0..] == name;
    }
    var denied := RunRules(acl.pvs, pvname);
    if denied {
      return false;
    }
    denied := RunRules(acl.clients, client);
    return !denied;
  }

  lemma LastDot(name: PvName, k: nat)
    requires k < |name| && name[k] == DOT && DOT !in name[k + 1..]
    ensures StripLastField(name) == name[..k]
  {
  }

  /** Rules for a name whose field has been cut off see that very name. */
  lemma RulesSeeTheRecord(name: PvName)
    ensures StripLastField(StripField(name)) == StripField(name)
  {
  }
}
