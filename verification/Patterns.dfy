/**
 The two hand-written host pattern loops, Interceptor.MatchesPassthrough and
 Dialer.matchesBypass, and the one rule both follow.
 */
module Patterns {
  import opened Prelude
  import opened Text
  import opened HostPort

  // ---- Domain names as labels ----

  /** The labels of a name: the text between its dots. */
  function Labels(s: string): (ls: seq<string>)
    ensures |ls| >= 1
    decreases |s|
  {
    match Index(s, '.')
    case None => [s]
    case Some(i) => [s[..i]] + Labels(s[i + 1..])
  }

  function Dotted(ls: seq<string>): string
    requires ls != []
  {
    if |ls| == 1 then ls[0] else ls[0] + "." + Dotted(ls[1..])
  }

  predicate EndsWith(h: string, suffix: string) {
    |suffix| <= |h| && h[|h| - |suffix|..] == suffix
  }

  /** name is domain, or lies below it at a label boundary. */
  predicate InDomain(name: string, domain: string) {
    var n, d := Labels(name), Labels(domain);
    |d| <= |n| && n[|n| - |d|..] == d
  }

  lemma LabelsOfFirst(x: string, y: string)
    requires '.' !in x
    ensures Labels(x + "." + y) == [x] + Labels(y)
  {
    var s := x + "." + y;
    assert s == x + ['.'] + y;
    IndexAt(x, '.', y);
    assert s[..|x|] == x && s[|x| + 1..] == y;
  }

  lemma {:induction false} LabelsJoin(a: string, b: string)
    ensures Labels(a + "." + b) == Labels(a) + Labels(b)
    decreases |a|
  {
    if '.' !in a {
      LabelsOfFirst(a, b);
    } else {
      var first, rest := FirstLabel(a);
      assert a + "." + b == first + "." + (rest + "." + b);
      LabelsOfFirst(first, rest + "." + b);
      LabelsJoin(rest, b);
      Regroup([first], Labels(rest), Labels(b));
    }
  }

  lemma DottedFront(a: string, ls: seq<string>)
    requires ls != []
    ensures Dotted([a] + ls) == a + "." + Dotted(ls)
  {
    assert ([a] + ls)[1..] == ls;
  }

  /** A name with a dot is its first label and the labels of the rest. */
  lemma FirstLabel(s: string) returns (first: string, rest: string)
    requires '.' in s
    ensures '.' !in first && s == first + "." + rest && Labels(s) == [first] + Labels(rest)
  {
    var i := Index(s, '.').value;
    first, rest := s[..i], s[i + 1..];
  }

  lemma {:induction false} DottedLabels(s: string)
    ensures Dotted(Labels(s)) == s
    decreases |s|
  {
    if '.' in s {
      var first, rest := FirstLabel(s);
      DottedLabels(rest);
      DottedFront(first, Labels(rest));
    } else {
      assert Labels(s) == [s];
    }
  }

  lemma {:induction false} DottedConcat(a: seq<string>, b: seq<string>)
    requires a != [] && b != []
    ensures Dotted(a + b) == Dotted(a) + "." + Dotted(b)
    decreases |a|
  {
    assert (a + b)[1..] == a[1..] + b;
    if |a| > 1 {
      DottedConcat(a[1..], b);
    } else {
      assert a[1..] + b == b;
    }
  }

  lemma SuffixInDomain(h: string, d: string)
    requires h == d || EndsWith(h, "." + d)
    ensures InDomain(h, d)
  {
    if h != d {
      var front := h[..|h| - |d| - 1];
      assert h == front + ("." + d) == front + "." + d;
      LabelsJoin(front, d);
    }
  }

  lemma SuffixOf(front: string, d: string)
    ensures EndsWith(front + "." + d, "." + d)
  {
    assert front + "." + d == front + ("." + d);
  }

  lemma TailIsSuffix(front: seq<string>, m: seq<string>)
    requires front != [] && m != []
    ensures EndsWith(Dotted(front + m), "." + Dotted(m))
  {
    DottedConcat(front, m);
    SuffixOf(Dotted(front), Dotted(m));
  }

  lemma SplitTail<T>(n: seq<T>, m: seq<T>)
    requires |m| <= |n| && n[|n| - |m|..] == m
    ensures n == n[..|n| - |m|] + m
  {
  }

  /** What two label lists say of the names they spell. */
  lemma LabelsHaveSuffix(n: seq<string>, m: seq<string>)
    requires m != [] && |m| <= |n| && n[|n| - |m|..] == m
    ensures Dotted(n) == Dotted(m) || EndsWith(Dotted(n), "." + Dotted(m))
  {
    SplitTail(n, m);
    if |m| < |n| {
      TailIsSuffix(n[..|n| - |m|], m);
    } else {
      assert n[..0] + m == m;
    }
  }

  lemma InDomainHasSuffix(h: string, d: string)
    requires InDomain(h, d)
    ensures h == d || EndsWith(h, "." + d)
  {
    DottedLabels(h);
    DottedLabels(d);
    LabelsHaveSuffix(Labels(h), Labels(d));
  }

  /** The suffix test in the loops is the label rule, for every pair of texts. */
  lemma SuffixIsDomain(h: string, d: string)
    ensures h == d || EndsWith(h, "." + d) <==> InDomain(h, d)
  {
    if InDomain(h, d) {
      InDomainHasSuffix(h, d);
    } else if h == d || EndsWith(h, "." + d) {
      SuffixInDomain(h, d);
    }
  }

  // ---- The rule ----

  predicate IsLocalName(host: string) {
    host == "127.0.0.1" || host == "::1" || host == "localhost"
  }

  /** One pattern, already trimmed. */
  predicate Rule(p: string, host: string) {
    if p == "" then false
    else if p == "<local>" then IsLocalName(host)
    else if p[0] == '.' then InDomain(Lower(host), Lower(p[1..]))
    else Lower(host) == Lower(p)
  }

  /** Some pattern of the list selects the host. */
  predicate Selected(patterns: seq<string>, host: string) {
    exists i :: 0 <= i < |patterns| && Rule(TrimSpace(patterns[i]), host)
  }

  /** The host part of a target, or all of it when it has no port. */
  function HostOf(target: string): string {
    match SplitHostPort(target)
    case Some(a) => a.host
    case None => target
  }

  /** What one entry selects, kind by kind. */
  lemma EntryMeans(entry: string, host: string)
    ensures TrimSpace(entry) == "" ==> !Selected([entry], host)
    ensures TrimSpace(entry) == "<local>" ==>
              (Selected([entry], host) <==> host in {"127.0.0.1", "::1", "localhost"})
    ensures forall d: string :: TrimSpace(entry) == "." + d ==>
              (Selected([entry], host) <==> Lower(host) == Lower(d) || EndsWith(Lower(host), "." + Lower(d)))
    ensures TrimSpace(entry) != "" && TrimSpace(entry) != "<local>" && TrimSpace(entry)[0] != '.' ==>
              (Selected([entry], host) <==> Lower(host) == Lower(TrimSpace(entry)))
  {
    var p := TrimSpace(entry);
    assert Selected([entry], host) <==> Rule(p, host) by {
      assert [entry][0] == entry;
    }
    forall d: string | p == "." + d
      ensures Rule(p, host) <==> Lower(host) == Lower(d) || EndsWith(Lower(host), "." + Lower(d))
    {
      assert p[1..] == d && p[0] == '.' && "<local>"[0] == '<';
      SuffixIsDomain(Lower(host), Lower(d));
    }
  }

  /** A list selects what one of its entries selects. */
  lemma ListMeans(patterns: seq<string>, host: string)
    ensures Selected(patterns, host) <==> exists i :: 0 <= i < |patterns| && Selected([patterns[i]], host)
  {
    forall i | 0 <= i < |patterns| ensures Selected([patterns[i]], host) <==> Rule(TrimSpace(patterns[i]), host) {
      assert [patterns[i]][0] == patterns[i];
    }
  }

  // ---- The two loops ----

  /** matchesBypass. */
  method MatchesBypass(patterns: seq<string>, host: string) returns (r: bool)
    ensures r == Selected(patterns, host)
  {
    for i := 0 to |patterns|
      invariant forall k :: 0 <= k < i ==> !Rule(TrimSpace(patterns[k]), host)
    {
      var pattern := TrimSpace(patterns[i]);
      if pattern == "" {
        continue;
      }
      if pattern == "<local>" {
        if host == "127.0.0.1" || host == "::1" || host == "localhost" {
          return true;
        }
        continue;
      }
      if pattern[0] == '.' {
        var suffix := Lower(pattern);
        var h := Lower(host);
        assert suffix == "." + Lower(pattern[1..]);
        SuffixIsDomain(h, Lower(pattern[1..]));
        if h == suffix[1..] || EndsWith(h, suffix) {
          return true;
        }
      } else {
        if EqualFold(host, pattern) {
          return true;
        }
      }
    }
    return false;
  }

  /** MatchesPassthrough: the same loop over the host part of a target. */
  method MatchesPassthrough(patterns: seq<string>, target: string) returns (r: bool)
    ensures r == Selected(patterns, HostOf(target))
  {
    var hostname := target;
    var split := SplitHostPort(target);
    if split.Some? {
      hostname := split.value.host;
    }
    for i := 0 to |patterns|
      invariant forall k :: 0 <= k < i ==> !Rule(TrimSpace(patterns[k]), hostname)
    {
      var pattern := TrimSpace(patterns[i]);
      if pattern == "" {
        continue;
      }
      if pattern == "<local>" {
        if hostname == "127.0.0.1" || hostname == "::1" || hostname == "localhost" {
          return true;
        }
        continue;
      }
      if pattern[0] == '.' {
        var suffix := Lower(pattern);
        var h := Lower(hostname);
        assert suffix == "." + Lower(pattern[1..]);
        SuffixIsDomain(h, Lower(pattern[1..]));
        if h == suffix[1..] || EndsWith(h, suffix) {
          return true;
        }
      } else {
        if EqualFold(hostname, pattern) {
          return true;
        }
      }
    }
    return false;
  }

  // ---- What the rule does not depend on ----

  /** Exactly when the host part of a joined target is the host again. */
  lemma JoinedHostIff(host: string, port: string)
    requires BracketFree(port) && ':' !in port
    ensures HostOf(JoinHostPort(host, port)) == host <==> BracketFree(host)
  {
    var s := JoinHostPort(host, port);
    if BracketFree(host) {
      SplitJoin(host, port);
    } else if SplitHostPort(s).Some? {
      SplitShape(s);
    }
  }

  /** Exactly when a bare host is its own host part: for a host without brackets, unless it has one colon. */
  lemma BareHostIff(host: string)
    ensures HostOf(host) == host <==> SplitHostPort(host).None?
    ensures BracketFree(host) ==> (HostOf(host) == host <==> !OneColon(host))
    ensures Bracketed(host) ==> HostOf(host) == host
  {
    if SplitHostPort(host).Some? { SplitShape(host); }
    if BracketFree(host) { SplitsIffOneColon(host); }
    if Bracketed(host) { BracketsStay(host); }
  }

  /**
   With one list, the passthrough loop decides for a target as the bypass loop does for its
   host: for every host without brackets joined with a port, and for every bare host that is
   not read as a host and a port.
   */
  lemma LoopsAgree(patterns: seq<string>, host: string, port: string)
    requires BracketFree(port) && ':' !in port
    ensures BracketFree(host) ==> (Selected(patterns, HostOf(JoinHostPort(host, port))) <==> Selected(patterns, host))
    ensures SplitHostPort(host).None? ==> (Selected(patterns, HostOf(host)) <==> Selected(patterns, host))
    ensures ':' !in host ==> (Selected(patterns, HostOf(host)) <==> Selected(patterns, host))
  {
    JoinedHostIff(host, port);
    BareHostIff(host);
  }

  lemma OrderIndependent(a: seq<string>, b: seq<string>, host: string)
    requires multiset(a) == multiset(b)
    ensures Selected(a, host) <==> Selected(b, host)
  {
    forall i | 0 <= i < |a| ensures a[i] in b { assert a[i] in multiset(b); }
    forall i | 0 <= i < |b| ensures b[i] in a { assert b[i] in multiset(a); }
    if Selected(a, host) {
      var i :| 0 <= i < |a| && Rule(TrimSpace(a[i]), host);
      var j :| 0 <= j < |b| && b[j] == a[i];
      assert Rule(TrimSpace(b[j]), host);
    }
    if Selected(b, host) {
      var i :| 0 <= i < |b| && Rule(TrimSpace(b[i]), host);
      var j :| 0 <= j < |a| && a[j] == b[i];
      assert Rule(TrimSpace(a[j]), host);
    }
  }

  /** Some entry other than <local> selects the host. */
  predicate SelectedByName(patterns: seq<string>, host: string) {
    exists i :: 0 <= i < |patterns| && TrimSpace(patterns[i]) != "<local>" && Rule(TrimSpace(patterns[i]), host)
  }

  predicate HasLocal(patterns: seq<string>) {
    exists i :: 0 <= i < |patterns| && TrimSpace(patterns[i]) == "<local>"
  }

  lemma RuleFoldsHost(p: string, host: string)
    ensures p != "<local>" ==> (Rule(p, Lower(host)) <==> Rule(p, host))
  {
    LowerIdempotent(host);
  }

  lemma SelectedSplits(patterns: seq<string>, host: string)
    ensures Selected(patterns, host) <==>
              SelectedByName(patterns, host) || (HasLocal(patterns) && IsLocalName(host))
  {
    if HasLocal(patterns) && IsLocalName(host) {
      var i :| 0 <= i < |patterns| && TrimSpace(patterns[i]) == "<local>";
      assert Rule(TrimSpace(patterns[i]), host);
    }
  }

  /**
   Letter case of the host matters in exactly one situation: a <local> entry, the name
   localhost spelt with a capital, and no other entry that selects it.
   */
  lemma CaseMattersIff(patterns: seq<string>, host: string)
    ensures Selected(patterns, host) != Selected(patterns, Lower(host))
            <==> HasLocal(patterns) && Lower(host) == "localhost" && host != "localhost"
                 && !SelectedByName(patterns, host)
  {
    SelectedSplits(patterns, host);
    SelectedSplits(patterns, Lower(host));
    assert SelectedByName(patterns, host) <==> SelectedByName(patterns, Lower(host)) by {
      forall i | 0 <= i < |patterns| ensures TrimSpace(patterns[i]) != "<local>" ==>
        (Rule(TrimSpace(patterns[i]), Lower(host)) <==> Rule(TrimSpace(patterns[i]), host))
      {
        RuleFoldsHost(TrimSpace(patterns[i]), host);
      }
    }
    LowerNumeric(host);
  }

  /** Lower-casing never turns another text into one of the numeric local names. */
  lemma LowerNumeric(host: string)
    ensures Lower(host) == "127.0.0.1" ==> host == "127.0.0.1"
    ensures Lower(host) == "::1" ==> host == "::1"
    ensures host == "127.0.0.1" || host == "::1" || host == "localhost" ==> Lower(host) == host
  {
    if Lower(host) == "127.0.0.1" {
      forall i | 0 <= i < |host| ensures host[i] == "127.0.0.1"[i] { assert Lower(host)[i] == LowerChar(host[i]); }
    }
    if Lower(host) == "::1" {
      forall i | 0 <= i < |host| ensures host[i] == "::1"[i] { assert Lower(host)[i] == LowerChar(host[i]); }
    }
  }
}
