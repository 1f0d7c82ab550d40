/** The configuration rules the run time consults: which section of the
    configuration file applies to the selected backend, how many shots to
    run, and how a backend id names a provider. Reading the file and the
    providers themselves are outside the model; the file arrives parsed. */
module Config {
  import opened Wrappers

  datatype ConfigError = ValueError | TypeError

  /** One `[name]` section with its integer options. */
  datatype Section = Section(name: string, options: map<string, int>)

  /** A parsed configuration file: the `[DEFAULT]` options, which every section
      inherits, and the sections in file order. */
  datatype Ini = Ini(defaults: map<string, int>, sections: seq<Section>)

  const SectionPrefix := "backend:"
  const Wildcard := "*"
  const FallbackShots := 1024
  const DefaultBackend := "basicaer:qasm_simulator"

  predicate StartsWith(s: string, prefix: string)
  {
    |prefix| <= |s| && s[..|prefix|] == prefix
  }

  /** The position of the first occurrence of c in s, if any. */
  function Find(s: string, c: char): (r: Option<nat>)
    ensures r.Some? ==> r.value < |s| && s[r.value] == c && forall k :: 0 <= k < r.value ==> s[k] != c
    ensures r.None? ==> forall k :: 0 <= k < |s| ==> s[k] != c
  {
    if |s| == 0 then None
    else if s[0] == c then Some(0)
    else
      var r := Find(s[1..], c);
      if r.None? then None else Some(r.value + 1)
  }

  /** No character of s is c. */
  predicate Lacks(s: string, c: char)
  {
    forall k :: 0 <= k < |s| ==> s[k] != c
  }

  /** `s.split(c)`: the pieces between the occurrences of c. */
  function Split(s: string, c: char): (r: seq<string>)
    ensures |r| >= 1
    ensures forall i :: 0 <= i < |r| ==> Lacks(r[i], c)
    decreases |s|
  {
    var at := Find(s, c);
    if at.None? then [s] else [s[..at.value]] + Split(s[at.value + 1..], c)
  }

  /** `c.join(pieces)` */
  function Join(pieces: seq<string>, c: char): string
  {
    if |pieces| == 0 then "" else if |pieces| == 1 then pieces[0] else pieces[0] + [c] + Join(pieces[1..], c)
  }

  /** Splitting and joining back on the same character gives the string back. */
  lemma {:induction false} SplitJoin(s: string, c: char)
    ensures Join(Split(s, c), c) == s
    decreases |s|
  {
    var at := Find(s, c);
    if at.Some? {
      var head, rest := s[..at.value], s[at.value + 1..];
      SplitJoin(rest, c);
      var tail := Split(rest, c);
      assert Split(s, c) == [head] + tail;
      JoinCons(head, tail, c);
      assert s == head + [c] + rest;
    }
  }

  /** Joining a piece in front of at least one more puts c between them. */
  lemma JoinCons(head: string, tail: seq<string>, c: char)
    requires |tail| >= 1
    ensures Join([head] + tail, c) == head + [c] + Join(tail, c)
  {
    var parts := [head] + tail;
    assert parts[0] == head && parts[1..] == tail;
  }

  /** The section id: what follows the first ':' of the section name, whole. */
  function SectionId(name: string): (r: string)
    requires StartsWith(name, SectionPrefix)
    ensures r == name[|SectionPrefix|..]
  {
    PrefixColon(name);
    var at := Find(name, ':');
    name[at.value + 1..]
  }

  /** The first ':' of a backend section name is the one ending the prefix. */
  lemma PrefixColon(name: string)
    requires StartsWith(name, SectionPrefix)
    ensures Find(name, ':') == Some(|SectionPrefix| - 1)
  {
    var p := name[..|SectionPrefix|];
    assert p == SectionPrefix;
    assert p == ['b', 'a', 'c', 'k', 'e', 'n', 'd', ':'];
    forall k | 0 <= k < 7
      ensures name[k] != ':'
    {
      assert name[k] == p[k];
    }
    FindFirst(name, ':', 7);
  }

  /** A section applies to a backend when it is a backend section whose id is
      the wildcard or that backend's id. */
  predicate Applies(name: string, backendId: string)
  {
    StartsWith(name, SectionPrefix) && (SectionId(name) == Wildcard || SectionId(name) == backendId)
  }

  /** `_get_backend_matching_section`: the first section, in file order, that
      applies to the backend, if any. */
  function MatchingSection(backendId: string, sections: seq<Section>): (r: Option<nat>)
    ensures r.Some? ==>
      && r.value < |sections|
      && Applies(sections[r.value].name, backendId)
      && forall j :: 0 <= j < r.value ==> !Applies(sections[j].name, backendId)
    ensures r.None? ==> forall j :: 0 <= j < |sections| ==> !Applies(sections[j].name, backendId)
  {
    if |sections| == 0 then None
    else if Applies(sections[0].name, backendId) then Some(0)
    else
      var r := MatchingSection(backendId, sections[1..]);
      if r.None? then None else Some(r.value + 1)
  }

  /** A wildcard section catches every backend: a match exists and comes no
      later than the wildcard. */
  lemma WildcardCatchesAll(backendId: string, sections: seq<Section>, i: nat)
    requires i < |sections| && sections[i].name == "backend:*"
    ensures MatchingSection(backendId, sections).Some?
    ensures MatchingSection(backendId, sections).value <= i
  {
    assert StartsWith(sections[i].name, SectionPrefix);
    assert SectionId(sections[i].name) == Wildcard;
  }

  /** A section named `backend:` followed by an id applies exactly to the
      backends that id names: all of them for the wildcard, else the one
      spelled the same. */
  lemma AppliesPrefixed(id: string, backendId: string)
    ensures Applies(SectionPrefix + id, backendId) <==> id == Wildcard || id == backendId
  {
    var name := SectionPrefix + id;
    assert name[..|SectionPrefix|] == SectionPrefix;
    assert name[|SectionPrefix|..] == id;
  }

  /** The id is compared whole after the first ':', so a section for
      `basicaer:qasm_simulator` applies to that backend and not to
      `qasm_simulator`, and a bare `backend` section applies to none. */
  lemma SectionIdIsWhole()
    ensures Applies("backend:basicaer:qasm_simulator", DefaultBackend)
    ensures !Applies("backend:basicaer:qasm_simulator", "qasm_simulator")
    ensures !Applies("backend", DefaultBackend)
  {
    var id := DefaultBackend;
    assert "backend:basicaer:qasm_simulator" == SectionPrefix + id;
    AppliesPrefixed(id, id);
    AppliesPrefixed(id, "qasm_simulator");
    assert |id| != |"qasm_simulator"|;
    assert |"backend"| < |SectionPrefix|;
  }

  /** `get_shots`: the `shots` option of the applying section (which inherits
      the defaults), or 1024 when no section applies or none sets it. */
  function GetShots(backendId: string, ini: Ini): (r: int)
    ensures var m := MatchingSection(backendId, ini.sections);
            && (m.None? ==> r == FallbackShots)
            && (m.Some? ==>
                 var opts := ini.sections[m.value].options;
                 && ("shots" in opts ==> r == opts["shots"])
                 && ("shots" !in opts && "shots" in ini.defaults ==> r == ini.defaults["shots"])
                 && ("shots" !in opts && "shots" !in ini.defaults ==> r == FallbackShots))
  {
    var m := MatchingSection(backendId, ini.sections);
    if m.None? then FallbackShots
    else
      var opts := ini.sections[m.value].options;
      if "shots" in opts then opts["shots"]
      else if "shots" in ini.defaults then ini.defaults["shots"]
      else FallbackShots
  }

  /** With no backend section at all, the defaults are not consulted. */
  lemma NoSectionMeansFallback(backendId: string, defaults: map<string, int>)
    ensures GetShots(backendId, Ini(defaults, [])) == FallbackShots
  {
  }

  /** `_resolve_backend`: a provider absent from the provider table is refused;
      otherwise the provider is asked for the backend (outside the model). */
  function ResolveBackend(providers: set<string>, provider: string, backend: string): (r: Result<(string, string), ConfigError>)
    ensures r.Err? <==> provider !in providers
    ensures r.Err? ==> r.error == ValueError
    ensures r.Ok? ==> r.value == (provider, backend)
  {
    if provider !in providers then Err(ValueError) else Ok((provider, backend))
  }

  /** `get_backend`: the selected id split at every ':'; anything but exactly
      two pieces does not fit the two parameters of `_resolve_backend`. */
  function GetBackend(providers: set<string>, backendId: string): (r: Result<(string, string), ConfigError>)
    ensures |Split(backendId, ':')| != 2 ==> r == Err(TypeError)
    ensures |Split(backendId, ':')| == 2 ==> r == ResolveBackend(providers, Split(backendId, ':')[0], Split(backendId, ':')[1])
  {
    var parts := Split(backendId, ':');
    if |parts| != 2 then Err(TypeError) else ResolveBackend(providers, parts[0], parts[1])
  }

  /** The resolved pair joins back into the id it came from. */
  lemma ResolvedBackendJoinsBack(providers: set<string>, backendId: string)
    requires GetBackend(providers, backendId).Ok?
    ensures var (p, b) := GetBackend(providers, backendId).value;
            p + ":" + b == backendId
  {
    SplitJoin(backendId, ':');
    var parts := Split(backendId, ':');
    assert Join(parts, ':') == parts[0] + [':'] + Join(parts[1..], ':');
  }

  /** Find returns the first occurrence, wherever the search starts. */
  lemma {:induction false} FindFirst(s: string, c: char, i: nat)
    requires i < |s| && s[i] == c && forall k :: 0 <= k < i ==> s[k] != c
    ensures Find(s, c) == Some(i)
  {
    if i > 0 {
      FindFirst(s[1..], c, i - 1);
    }
  }

  lemma SplitAtFirst(s: string, c: char, i: nat)
    requires i < |s| && s[i] == c && forall k :: 0 <= k < i ==> s[k] != c
    ensures Split(s, c) == [s[..i]] + Split(s[i + 1..], c)
  {
    FindFirst(s, c, i);
  }

  lemma SplitWithout(s: string, c: char)
    requires forall k :: 0 <= k < |s| ==> s[k] != c
    ensures Split(s, c) == [s]
  {
  }

  /** An id made of a provider and a backend without ':' splits into the two. */
  lemma SplitPair(provider: string, backend: string)
    requires forall k :: 0 <= k < |provider| ==> provider[k] != ':'
    requires forall k :: 0 <= k < |backend| ==> backend[k] != ':'
    ensures Split(provider + ":" + backend, ':') == [provider, backend]
  {
    var id := provider + ":" + backend;
    SplitAtFirst(id, ':', |provider|);
    assert id[..|provider|] == provider;
    assert id[|provider| + 1..] == backend;
    SplitWithout(backend, ':');
  }

  /** An id `provider:backend` resolves exactly when the provider is in the
      table. */
  lemma PairResolves(providers: set<string>, provider: string, backend: string)
    requires forall k :: 0 <= k < |provider| ==> provider[k] != ':'
    requires forall k :: 0 <= k < |backend| ==> backend[k] != ':'
    ensures GetBackend(providers, provider + ":" + backend)
            == if provider in providers then Ok((provider, backend)) else Err(ValueError)
  {
    SplitPair(provider, backend);
  }

  /** The default backend resolves whenever `basicaer` is a provider (it always
      is), and is refused by a table without it. */
  lemma DefaultBackendResolves(providers: set<string>)
    requires "basicaer" in providers
    ensures GetBackend(providers, DefaultBackend) == Ok(("basicaer", "qasm_simulator"))
    ensures GetBackend(providers - {"basicaer"}, DefaultBackend) == Err(ValueError)
  {
    var provider, backend := "basicaer", "qasm_simulator";
    assert DefaultBackend == provider + ":" + backend;
    assert Lacks(provider, ':') && Lacks(backend, ':');
    PairResolves(providers, provider, backend);
    PairResolves(providers - {"basicaer"}, provider, backend);
  }
}
