/**
 * The network allowlist (kernel-runtime/src/lib.rs): a bucketed index of URL prefix rules beside a
 * set of plain hosts.  URLs come parsed; host normalisation is a parameter, `norm`.
 */
module Allowlist {
  import opened Prelude
  import opened Strings

  datatype Url = Url(scheme: string, host: Option<string>, port: Option<nat>, path: string)

  /** An allowlist entry after trimming: it parses as a URL, or it is taken as a host. */
  datatype Entry = UrlEntry(url: Url) | HostEntry(text: string)

  datatype Rule = Rule(scheme: string, host: string, port: Option<nat>, path: string)

  type BucketKey = (string, string, nat)

  datatype Allowlist = Allowlist(domains: set<string>, rules: seq<Rule>,
                                 index: map<BucketKey, seq<Rule>>, resolverHosts: set<string>)

  type Norm = string -> string

  function LowerChar(c: char): char {
    if 'A' <= c <= 'Z' then c + 32 as char else c
  }

  function Lower(s: string): string {
    seq(|s|, i requires 0 <= i < |s| => LowerChar(s[i]))
  }

  /** The port in the URL, or the known default of its scheme. */
  function PortOrDefault(u: Url): Option<nat> {
    if u.port.Some? then u.port
    else if u.scheme == "http" || u.scheme == "ws" then Some(80)
    else if u.scheme == "https" || u.scheme == "wss" then Some(443)
    else if u.scheme == "ftp" then Some(21)
    else None
  }

  function RuleOf(norm: Norm, u: Url): Option<Rule> {
    if u.scheme != "http" && u.scheme != "https" then None
    else if u.host.None? then None
    else Some(Rule(Lower(u.scheme), norm(u.host.value), PortOrDefault(u), if u.path == [] then "/" else u.path))
  }

  predicate MatchesPath(rule: Rule, path: string) {
    if rule.path == "/" then true
    else if !(rule.path <= path) then false
    else if |path| == |rule.path| then true
    else (rule.path != [] && rule.path[|rule.path| - 1] == '/') || path[|rule.path|] == '/'
  }

  predicate Matches(norm: Norm, rule: Rule, u: Url) {
    && Lower(u.scheme) == rule.scheme
    && u.host.Some? && norm(u.host.value) == rule.host
    && (rule.port.Some? ==> PortOrDefault(u) == rule.port)
    && MatchesPath(rule, u.path)
  }

  // ---------------------------------------------------------------- the simple form

  function Rules(norm: Norm, entries: seq<Entry>): seq<Rule> {
    if entries == [] then []
    else
      var last := entries[|entries| - 1];
      Rules(norm, entries[..|entries| - 1]) +
      if last.UrlEntry? && RuleOf(norm, last.url).Some? then [RuleOf(norm, last.url).value] else []
  }

  function Domains(norm: Norm, entries: seq<Entry>): set<string> {
    set e | e in entries && e.HostEntry? :: norm(e.text)
  }

  /** Host listed, or some rule matches by linear scan. */
  predicate AllowedByScan(norm: Norm, entries: seq<Entry>, u: Url) {
    u.host.Some? &&
    (norm(u.host.value) in Domains(norm, entries) || exists r :: r in Rules(norm, entries) && Matches(norm, r, u))
  }

  // ---------------------------------------------------------------- the index

  function KeyOf(r: Rule): BucketKey
    requires r.port.Some?
  {
    (r.scheme, r.host, r.port.value)
  }

  /** The index holds each rule that has a port in its own bucket, and nothing else. */
  ghost predicate Indexed(a: Allowlist) {
    && (forall k, r :: InBucket(a.index, k, r) ==> r in a.rules && r.port.Some? && k == KeyOf(r))
    && (forall r :: r in a.rules && r.port.Some? ==> InBucket(a.index, KeyOf(r), r))
  }

  predicate InBucket(index: map<BucketKey, seq<Rule>>, k: BucketKey, r: Rule) {
    k in index && r in index[k]
  }

  ghost predicate Built(norm: Norm, entries: seq<Entry>, a: Allowlist) {
    && a.domains == Domains(norm, entries)
    && a.rules == Rules(norm, entries)
    && Indexed(a)
    && a.resolverHosts == a.domains + set r | r in a.rules :: r.host
  }

  function AddToIndex(index: map<BucketKey, seq<Rule>>, r: Rule): map<BucketKey, seq<Rule>>
    requires r.port.Some?
  {
    index[KeyOf(r) := (if KeyOf(r) in index then index[KeyOf(r)] else []) + [r]]
  }

  lemma AddKeepsIndexed(a: Allowlist, r: Rule)
    requires Indexed(a)
    ensures Indexed(a.(rules := a.rules + [r], index := if r.port.Some? then AddToIndex(a.index, r) else a.index))
  {
    var b := a.(rules := a.rules + [r], index := if r.port.Some? then AddToIndex(a.index, r) else a.index);
    forall k, q
      ensures InBucket(b.index, k, q) <==> InBucket(a.index, k, q) || (q == r && r.port.Some? && k == KeyOf(r))
    {
      if r.port.Some? && k == KeyOf(r) {
        var bucket := if k in a.index then a.index[k] else [];
        assert q in bucket + [r] <==> q in bucket || q == r;
      }
    }
    forall q | q in b.rules && q.port.Some?
      ensures InBucket(b.index, KeyOf(q), q)
    {
      if q in a.rules { assert InBucket(a.index, KeyOf(q), q); }
    }
  }

  /** `NormalizedAllowlist::new`: one pass fills the host set, the rules and the index. */
  method Build(norm: Norm, entries: seq<Entry>) returns (a: Allowlist)
    ensures Built(norm, entries, a)
  {
    a := Allowlist({}, [], map[], {});
    for i := 0 to |entries|
      invariant Built(norm, entries[..i], a)
    {
      var e := entries[i];
      BuiltStep(norm, entries, i);
      if e.UrlEntry? {
        var r := RuleOf(norm, e.url);
        if r.Some? {
          AddKeepsIndexed(a, r.value);
          var index := a.index;
          if r.value.port.Some? { index := AddToIndex(index, r.value); }
          var b := a.(rules := a.rules + [r.value], index := index, resolverHosts := a.resolverHosts + {r.value.host});
          assert Indexed(b);
          a := b;
        }
      } else {
        var host := norm(e.text);
        a := a.(domains := a.domains + {host}, resolverHosts := a.resolverHosts + {host});
      }
    }
    assert entries[..|entries|] == entries;
  }

  lemma BuiltStep(norm: Norm, entries: seq<Entry>, i: nat)
    requires i < |entries|
    ensures var e := entries[i];
            && Domains(norm, entries[..i + 1]) ==
               Domains(norm, entries[..i]) + (if e.HostEntry? then {norm(e.text)} else {})
            && Rules(norm, entries[..i + 1]) ==
               Rules(norm, entries[..i]) +
               if e.UrlEntry? && RuleOf(norm, e.url).Some? then [RuleOf(norm, e.url).value] else []
  {
    assert entries[..i + 1] == entries[..i] + [entries[i]];
    assert entries[..i + 1][..i] == entries[..i];
  }

  /** `contains_host`, which the resolver asks. */
  predicate ContainsHost(norm: Norm, a: Allowlist, host: string) {
    norm(host) in a.resolverHosts
  }

  predicate IsUrlAllowed(norm: Norm, a: Allowlist, u: Url) {
    if u.host.None? then false
    else if norm(u.host.value) in a.domains then true
    else if PortOrDefault(u).None? then exists r :: r in a.rules && Matches(norm, r, u)
    else
      var key := (Lower(u.scheme), norm(u.host.value), PortOrDefault(u).value);
      key in a.index && exists r :: r in a.index[key] && MatchesPath(r, u.path)
  }

  // ---------------------------------------------------------------- agreement

  lemma {:induction false} RulesHavePorts(norm: Norm, entries: seq<Entry>, r: Rule)
    requires r in Rules(norm, entries)
    ensures r.port.Some?
  {
    if entries != [] && r in Rules(norm, entries[..|entries| - 1]) {
      RulesHavePorts(norm, entries[..|entries| - 1], r);
    }
  }

  /** For every allowlist and every URL, the indexed lookup decides as the linear scan does. */
  lemma IndexAgreesWithScan(norm: Norm, entries: seq<Entry>, a: Allowlist, u: Url)
    requires Built(norm, entries, a)
    ensures IsUrlAllowed(norm, a, u) <==> AllowedByScan(norm, entries, u)
  {
    if u.host.Some? && norm(u.host.value) !in a.domains && PortOrDefault(u).Some? {
      var key := (Lower(u.scheme), norm(u.host.value), PortOrDefault(u).value);
      forall r | r in a.rules && Matches(norm, r, u)
        ensures InBucket(a.index, key, r)
      {
        RulesHavePorts(norm, entries, r);
      }
      forall r | InBucket(a.index, key, r) && MatchesPath(r, u.path)
        ensures r in a.rules && Matches(norm, r, u)
      {
      }
      if IsUrlAllowed(norm, a, u) {
        var r :| r in a.index[key] && MatchesPath(r, u.path);
        assert InBucket(a.index, key, r);
      }
    }
  }

  /** A URL that is allowed can also be resolved: its host is one the resolver accepts. */
  lemma AllowedHostsResolve(norm: Norm, entries: seq<Entry>, a: Allowlist, u: Url)
    requires Built(norm, entries, a) && IsUrlAllowed(norm, a, u)
    ensures ContainsHost(norm, a, u.host.value)
  {
    IndexAgreesWithScan(norm, entries, a, u);
  }

  // ---------------------------------------------------------------- what a path prefix means

  /** A rule path that ends in a slash, the root's included, matches by plain prefix. */
  lemma SlashPathMatchesPrefix(rule: Rule, path: string)
    requires rule.path != [] && rule.path[|rule.path| - 1] == '/' && path != [] && path[0] == '/'
    ensures MatchesPath(rule, path) <==> rule.path <= path
  {
  }

  /** The root path, and a rule written without a path, match everything. */
  lemma RootMatchesEverything(norm: Norm, u: Url, rule: Rule, path: string)
    ensures rule.path == "/" ==> MatchesPath(rule, path)
    ensures u.path == [] && RuleOf(norm, u).Some? ==> MatchesPath(RuleOf(norm, u).value, path)
  {
  }

  /** Lower-casing leaves no capital and changes nothing but capitals. */
  lemma LowerHasNoCapitals(s: string)
    ensures |Lower(s)| == |s|
    ensures forall i :: 0 <= i < |s| ==> !('A' <= Lower(s)[i] <= 'Z')
    ensures forall i :: 0 <= i < |s| && Lower(s)[i] != s[i] ==>
              'A' <= s[i] <= 'Z' && Lower(s)[i] as int - s[i] as int == 32
  {
  }

  /** What a rule without a port of its own stands for: port 80 for http, 443 for https. */
  lemma DefaultPortsAreTheSchemes(norm: Norm, rule: Url, u: Url)
    requires rule.scheme == "http" || rule.scheme == "https"
    requires rule.host.Some? && rule.port.None? && u.scheme == rule.scheme && u.host == rule.host && u.path == rule.path
    requires u.path != []
    ensures RuleOf(norm, rule).Some?
    ensures Matches(norm, RuleOf(norm, rule).value, u) <==>
            u.port.None? || u.port == Some(if rule.scheme == "http" then 80 else 443)
  {
  }

  /**
   * A rule path that does not end in a slash matches by whole segments: exactly the paths whose
   * '/'-separated segments begin with the rule's.  So "/api" does not match "/apix".
   */
  lemma PathMatchesWholeSegments(rule: Rule, path: string)
    requires rule.path != [] && rule.path[|rule.path| - 1] != '/'
    ensures MatchesPath(rule, path) <==> Split(rule.path, '/') <= Split(path, '/')
  {
    var p := rule.path;
    var (a, b) := (Split(p, '/'), Split(path, '/'));
    if MatchesPath(rule, path) {
      if |path| > |p| {
        var rest := path[|p| + 1..];
        assert path == p + ['/'] + rest;
        SplitConcat(p, '/', rest);
      } else {
        assert path == p;
      }
    }
    if a <= b {
      JoinSplit(p, '/');
      JoinSplit(path, '/');
      var more := b[|a|..];
      assert b == a + more;
      if more == [] {
        assert b == a;
      } else {
        JoinConcat(a, more, '/');
        assert path == p + ['/'] + Join(more, '/');
        assert p <= path && path[|p|] == '/';
      }
    }
  }
}
