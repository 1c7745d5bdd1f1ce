/** Profile validation and the table of profiles keyed by name and alias. */
module Profiles {
  import opened Prelude
  import opened Text

  datatype Profile = Profile(name: string, aliases: seq<string>, clientHello: string, userAgent: string,
                             alpn: seq<string>)

  datatype Problem =
    | NameMissing
    | AliasEmpty
    | AliasRepeated(alias: string)
    | ClientHelloMissing
    | UserAgentMissing
    | AlpnMissing
    | NameTaken(name: string)

  type Registry = map<string, Profile>

  function TrimAll(ss: seq<string>): (r: seq<string>)
    ensures |r| == |ss|
  {
    if ss == [] then [] else TrimAll(ss[..|ss| - 1]) + [TrimSpace(ss[|ss| - 1])]
  }

  lemma {:induction false} TrimAllAt(ss: seq<string>, i: nat)
    requires i < |ss|
    ensures TrimAll(ss)[i] == TrimSpace(ss[i])
  {
    if i < |ss| - 1 { TrimAllAt(ss[..|ss| - 1], i); }
  }

  /** The name and the aliases, trimmed. */
  function Names(p: Profile): (r: seq<string>)
    ensures |r| == |p.aliases| + 1
  {
    TrimAll([p.name] + p.aliases)
  }

  lemma NameAt(p: Profile, i: nat)
    requires i <= |p.aliases|
    ensures Names(p)[i] == TrimSpace(([p.name] + p.aliases)[i])
  {
    TrimAllAt([p.name] + p.aliases, i);
  }

  /** The first k names. */
  function NamesUpTo(names: seq<string>, k: nat): set<string>
    requires k <= |names|
  {
    if k == 0 then {} else NamesUpTo(names, k - 1) + {names[k - 1]}
  }

  lemma {:induction false} UpToMeans(names: seq<string>, k: nat, n: string)
    requires k <= |names|
    ensures n in NamesUpTo(names, k) <==> exists i :: 0 <= i < k && names[i] == n
  {
    if k > 0 {
      UpToMeans(names, k - 1, n);
      assert n == names[k - 1] || (n in NamesUpTo(names, k) <==> n in NamesUpTo(names, k - 1));
    }
  }

  ghost predicate Distinct(names: seq<string>, k: nat)
    requires k <= |names|
  {
    forall i, j :: 0 <= i < j < k ==> names[i] != names[j]
  }

  ghost predicate NoneEmpty(names: seq<string>, k: nat)
    requires k <= |names|
  {
    forall i :: 0 <= i < k ==> names[i] != ""
  }

  ghost predicate Repeated(names: seq<string>, n: string) {
    exists i, j :: 0 <= i < j < |names| && names[i] == names[j] == n
  }

  ghost predicate NamesGood(p: Profile) {
    NoneEmpty(Names(p), |Names(p)|) && Distinct(Names(p), |Names(p)|)
  }

  ghost predicate Valid(p: Profile) {
    && NamesGood(p)
    && TrimSpace(p.clientHello) != "" && TrimSpace(p.userAgent) != "" && p.alpn != []
  }

  /** The i-th of the name and the aliases. */
  function Given(p: Profile, i: nat): string
    requires i <= |p.aliases|
  {
    if i == 0 then p.name else p.aliases[i - 1]
  }

  /** In terms of the profile as given: which ones are valid. */
  lemma ValidMeans(p: Profile)
    ensures Valid(p) <==>
              && (forall i :: 0 <= i <= |p.aliases| ==> TrimSpace(Given(p, i)) != "")
              && (forall i, j :: 0 <= i < j <= |p.aliases| ==> TrimSpace(Given(p, i)) != TrimSpace(Given(p, j)))
              && TrimSpace(p.clientHello) != "" && TrimSpace(p.userAgent) != "" && |p.alpn| > 0
  {
    var names := Names(p);
    forall i | 0 <= i <= |p.aliases| ensures names[i] == TrimSpace(Given(p, i)) {
      NameAt(p, i);
    }
  }

  method Validate(p: Profile) returns (problem: Option<Problem>)
    ensures problem.None? <==> Valid(p)
    ensures problem == Some(NameMissing) <==> TrimSpace(p.name) == ""
    ensures problem == Some(AliasEmpty) ==> exists i :: 0 < i < |Names(p)| && Names(p)[i] == ""
    ensures problem.Some? && problem.value.AliasRepeated? ==> Repeated(Names(p), problem.value.alias)
    ensures problem == Some(ClientHelloMissing) <==> NamesGood(p) && TrimSpace(p.clientHello) == ""
    ensures problem == Some(UserAgentMissing) <==>
              NamesGood(p) && TrimSpace(p.clientHello) != "" && TrimSpace(p.userAgent) == ""
    ensures problem == Some(AlpnMissing) <==>
              NamesGood(p) && TrimSpace(p.clientHello) != "" && TrimSpace(p.userAgent) != "" && p.alpn == []
    ensures problem.Some? ==> !problem.value.NameTaken?
  {
    NameAt(p, 0);
    if TrimSpace(p.name) == "" {
      return Some(NameMissing);
    }
    problem := CheckAliases(p);
    if problem.Some? {
      return problem;
    }
    if TrimSpace(p.clientHello) == "" {
      return Some(ClientHelloMissing);
    }
    if TrimSpace(p.userAgent) == "" {
      return Some(UserAgentMissing);
    }
    if |p.alpn| == 0 {
      return Some(AlpnMissing);
    }
    problem := None;
  }

  /** The loop over the aliases. */
  method CheckAliases(p: Profile) returns (problem: Option<Problem>)
    requires TrimSpace(p.name) != ""
    ensures problem.None? <==> NamesGood(p)
    ensures problem.Some? ==> problem.value.AliasEmpty? || problem.value.AliasRepeated?
    ensures problem == Some(AliasEmpty) ==> exists i :: 0 < i < |Names(p)| && Names(p)[i] == ""
    ensures problem.Some? && problem.value.AliasRepeated? ==> Repeated(Names(p), problem.value.alias)
  {
    ghost var names := Names(p);
    NameAt(p, 0);
    var seen := {TrimSpace(p.name)};
    assert NamesUpTo(names, 0) + {names[0]} == seen;
    for i := 0 to |p.aliases|
      invariant seen == NamesUpTo(names, i + 1)
      invariant Distinct(names, i + 1) && NoneEmpty(names, i + 1)
    {
      var alias := TrimSpace(p.aliases[i]);
      NameAt(p, i + 1);
      if alias == "" {
        return Some(AliasEmpty);
      }
      UpToMeans(names, i + 1, alias);
      if alias in seen {
        ghost var j :| 0 <= j < i + 1 && names[j] == alias;
        return Some(AliasRepeated(alias));
      }
      seen := seen + {alias};
    }
    problem := None;
  }

  /** The first k names lead to p. */
  function Entered(out: Registry, names: seq<string>, k: nat, p: Profile): Registry
    requires k <= |names|
  {
    if k == 0 then out else Entered(out, names, k - 1, p)[names[k - 1] := p]
  }

  lemma {:induction false} EnteredMeans(out: Registry, names: seq<string>, k: nat, p: Profile, n: string)
    requires k <= |names|
    ensures n in Entered(out, names, k, p) <==> n in out || n in NamesUpTo(names, k)
    ensures n in NamesUpTo(names, k) ==> Entered(out, names, k, p)[n] == p
    ensures n in out && n !in NamesUpTo(names, k) ==> Entered(out, names, k, p)[n] == out[n]
  {
    if k > 0 {
      EnteredMeans(out, names, k - 1, p, n);
    }
  }

  /** The first k names are new to the table and to each other. */
  ghost predicate Fresh(out: Registry, names: seq<string>, k: nat)
    requires k <= |names|
  {
    (forall i :: 0 <= i < k ==> names[i] !in out) && Distinct(names, k)
  }

  lemma OneMoreName(out: Registry, names: seq<string>, i: nat, p: Profile)
    requires i < |names| && Fresh(out, names, i)
    ensures Fresh(out, names, i + 1) <==> names[i] !in Entered(out, names, i, p)
  {
    EnteredMeans(out, names, i, p, names[i]);
    UpToMeans(names, i, names[i]);
  }

  /** Stops at the first taken name; the names before it stay entered. */
  method Register(out: Registry, p: Profile) returns (after: Registry, taken: Option<nat>)
    ensures taken.None? ==> Fresh(out, Names(p), |Names(p)|) && after == Entered(out, Names(p), |Names(p)|, p)
    ensures taken.Some? ==> taken.value < |Names(p)|
    ensures taken.Some? ==> Fresh(out, Names(p), taken.value) && !Fresh(out, Names(p), taken.value + 1)
    ensures taken.Some? ==> after == Entered(out, Names(p), taken.value, p)
  {
    var names := [p.name] + p.aliases;
    ghost var trimmed := Names(p);
    after := out;
    for i := 0 to |names|
      invariant after == Entered(out, trimmed, i, p)
      invariant Fresh(out, trimmed, i)
    {
      var name := TrimSpace(names[i]);
      NameAt(p, i);
      OneMoreName(out, trimmed, i, p);
      if name in after {
        return after, Some(i);
      }
      after := after[name := p];
    }
    taken := None;
  }

  // ---- A directory of profiles ----

  function NameSet(p: Profile): set<string> {
    NamesUpTo(Names(p), |Names(p)|)
  }

  /** The names of the first k profiles. */
  function AllNames(ps: seq<Profile>, k: nat): set<string>
    requires k <= |ps|
  {
    if k == 0 then {} else AllNames(ps, k - 1) + NameSet(ps[k - 1])
  }

  /** Each of the first k profiles is valid and shares no name or alias with an earlier one. */
  ghost predicate Loadable(ps: seq<Profile>, k: nat)
    requires k <= |ps|
  {
    k == 0 || (Loadable(ps, k - 1) && Valid(ps[k - 1]) && AllNames(ps, k - 1) !! NameSet(ps[k - 1]))
  }

  /** LoadDir's table of the first k decoded files. */
  function Table(ps: seq<Profile>, k: nat): Registry
    requires k <= |ps|
  {
    if k == 0 then map[]
    else Entered(Table(ps, k - 1), Names(ps[k - 1]), |Names(ps[k - 1])|, ps[k - 1])
  }

  lemma EnteredKeys(out: Registry, p: Profile)
    ensures Entered(out, Names(p), |Names(p)|, p).Keys == out.Keys + NameSet(p)
  {
    forall n ensures n in Entered(out, Names(p), |Names(p)|, p) <==> n in out.Keys + NameSet(p) {
      EnteredMeans(out, Names(p), |Names(p)|, p, n);
    }
  }

  lemma {:induction false} TableKeys(ps: seq<Profile>, k: nat)
    requires k <= |ps|
    ensures Table(ps, k).Keys == AllNames(ps, k)
  {
    if k > 0 {
      TableKeys(ps, k - 1);
      EnteredKeys(Table(ps, k - 1), ps[k - 1]);
    }
  }

  lemma FreshIffDisjoint(out: Registry, p: Profile)
    requires Valid(p)
    ensures Fresh(out, Names(p), |Names(p)|) <==> out.Keys !! NameSet(p)
  {
    NewIffDisjoint(out, Names(p), |Names(p)|);
  }

  lemma {:induction false} NewIffDisjoint(out: Registry, names: seq<string>, k: nat)
    requires k <= |names|
    ensures (forall i :: 0 <= i < k ==> names[i] !in out) <==> out.Keys !! NamesUpTo(names, k)
  {
    if k > 0 {
      NewIffDisjoint(out, names, k - 1);
      assert names[k - 1] in NamesUpTo(names, k);
    }
  }

  /** A loadable directory is loadable up to any of its files. */
  lemma {:induction false} LoadablePrefix(ps: seq<Profile>, k: nat, n: nat)
    requires k <= n <= |ps| && Loadable(ps, n)
    ensures Loadable(ps, k)
  {
    if k < n {
      LoadablePrefix(ps, k, n - 1);
    }
  }

  /** One file of the directory: validate, then register. */
  method LoadOne(ghost ps: seq<Profile>, ghost k: nat, out: Registry, p: Profile) returns (r: Result<Registry, Problem>)
    requires k < |ps| && p == ps[k] && Loadable(ps, k) && out == Table(ps, k)
    ensures r.Ok? <==> Loadable(ps, k + 1)
    ensures r.Ok? ==> r.value == Table(ps, k + 1)
  {
    var problem := Validate(p);
    if problem.Some? {
      return Err(problem.value);
    }
    TableKeys(ps, k);
    FreshIffDisjoint(out, p);
    var after, taken := Register(out, p);
    if taken.Some? {
      return Err(NameTaken(Names(p)[taken.value]));
    }
    r := Ok(after);
  }

  /** LoadDir on the decoded files. */
  method LoadAll(ps: seq<Profile>) returns (r: Result<Registry, Problem>)
    ensures r.Ok? <==> Loadable(ps, |ps|)
    ensures r.Ok? ==> r.value == Table(ps, |ps|)
  {
    var out: Registry := map[];
    for i := 0 to |ps|
      invariant Loadable(ps, i)
      invariant out == Table(ps, i)
    {
      if Loadable(ps, |ps|) { LoadablePrefix(ps, i + 1, |ps|); }
      var one := LoadOne(ps, i, out, ps[i]);
      if one.Err? {
        return one;
      }
      out := one.value;
    }
    r := Ok(out);
  }

  /** The table gives a name to the one profile that bears it. */
  lemma {:induction false} TableMeans(ps: seq<Profile>, k: nat, i: nat, n: string)
    requires i < k <= |ps| && Loadable(ps, k) && n in NameSet(ps[i])
    ensures n in Table(ps, k) && Table(ps, k)[n] == ps[i]
  {
    var last := ps[k - 1];
    EnteredMeans(Table(ps, k - 1), Names(last), |Names(last)|, last, n);
    if i < k - 1 {
      TableMeans(ps, k - 1, i, n);
      TableKeys(ps, k - 1);
    }
  }

  predicate Apart(p: Profile, q: Profile) {
    NameSet(p) !! NameSet(q)
  }

  lemma {:induction false} ApartFromAll(ps: seq<Profile>, k: nat, p: Profile)
    requires k <= |ps|
    ensures AllNames(ps, k) !! NameSet(p) <==> forall i :: 0 <= i < k ==> Apart(ps[i], p)
  {
    if k > 0 {
      ApartFromAll(ps, k - 1, p);
    }
  }

  /** Valid, and no name shared with any profile before it. */
  ghost predicate Acceptable(ps: seq<Profile>, i: nat)
    requires i < |ps|
  {
    Valid(ps[i]) && forall j :: 0 <= j < i ==> Apart(ps[j], ps[i])
  }

  lemma AcceptableIff(ps: seq<Profile>, i: nat)
    requires i < |ps|
    ensures Acceptable(ps, i) <==> Valid(ps[i]) && AllNames(ps, i) !! NameSet(ps[i])
  {
    ApartFromAll(ps, i, ps[i]);
  }

  /** The directory loads exactly when every profile is valid and no two share a name. */
  lemma {:induction false} LoadableIff(ps: seq<Profile>, k: nat)
    requires k <= |ps|
    ensures Loadable(ps, k) <==> forall i :: 0 <= i < k ==> Acceptable(ps, i)
  {
    if k > 0 {
      LoadableIff(ps, k - 1);
      AcceptableIff(ps, k - 1);
    }
  }
}
