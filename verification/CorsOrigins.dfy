/**
  Which origins the middleware of server/middleware/cors admits.

  Lower-casing, case-insensitive comparison and the host part of a URL are library code;
  they are parameters here, and nothing is assumed about them.
 */
module CorsOrigins {
  import opened Common
  import opened Cors

  const SCHEME: seq<byte> := [':' as int, '/' as int, '/' as int]

  /** `host` is extractHost: the host of an origin, empty when it has none or is no URL. */
  datatype Library = Library(
    host: seq<byte> -> seq<byte>, lower: seq<byte> -> seq<byte>, equalFold: (seq<byte>, seq<byte>) -> bool)

  datatype Config = Config(allowOrigins: seq<seq<byte>>, allowCredentials: bool)

  predicate Contains(text: seq<byte>, part: seq<byte>) {
    exists i :: 0 <= i <= |text| && part <= text[i..]
  }

  // ------------------------------------------------------------- specification

  /** What an entry of the list is compared with: the whole origin or its host. */
  function Subject(lib: Library, origin: seq<byte>, allowed: seq<byte>): seq<byte> {
    if Contains(allowed, SCHEME) then origin else lib.host(origin)
  }

  /** An entry other than a lone star admits an origin. */
  ghost predicate Accepts(lib: Library, origin: seq<byte>, allowed: seq<byte>) {
    && origin != [] && allowed != []
    && var subject := Subject(lib, origin, allowed);
    && subject != []
    && if STAR in allowed then lib.lower(allowed) != [] && InLanguage(lib.lower(subject), lib.lower(allowed))
       else lib.equalFold(subject, allowed)
  }

  /** The entry settles the answer for the origin. */
  ghost predicate Decides(lib: Library, origin: seq<byte>, allowed: seq<byte>) {
    allowed == [STAR] || Accepts(lib, origin, allowed)
  }

  /** The first entry that settles the answer. */
  ghost predicate FirstDecision(lib: Library, c: Config, origin: seq<byte>, i: nat) {
    && i < |c.allowOrigins| && Decides(lib, origin, c.allowOrigins[i])
    && forall j :: 0 <= j < i ==> !Decides(lib, origin, c.allowOrigins[j])
  }

  ghost predicate Admits(lib: Library, c: Config, origin: seq<byte>) {
    exists i :: 0 <= i < |c.allowOrigins| && Decides(lib, origin, c.allowOrigins[i])
  }

  /** A lone star answers itself, except that credentials need the origin by name. */
  function Answer(c: Config, origin: seq<byte>, allowed: seq<byte>): seq<byte> {
    if allowed == [STAR] && !(c.allowCredentials && origin != []) then [STAR] else origin
  }

  /** `r` is the value of Access-Control-Allow-Origin, or empty when there is no such header. */
  ghost predicate Resolves(lib: Library, c: Config, origin: seq<byte>, r: seq<byte>) {
    && (forall i: nat :: FirstDecision(lib, c, origin, i) ==> r == Answer(c, origin, c.allowOrigins[i]))
    && (!Admits(lib, c, origin) ==> r == [])
  }

  // ------------------------------------------------------------ implementation

  /** `origins` is the argument of WithAllowOrigins, if that option was given. */
  method NewConfig(origins: Option<seq<seq<byte>>>, allowCredentials: bool) returns (c: Config)
    ensures c.allowOrigins == if origins.Some? && origins.value != [] then origins.value else [[]]
    ensures c.allowCredentials == allowCredentials
  {
    var list: seq<seq<byte>> := [[]];
    if origins.Some? {
      list := origins.value;
    }
    if |list| == 0 {
      list := [[]];
    }
    c := Config(list, allowCredentials);
  }

  method OriginMatches(lib: Library, requestOrigin: seq<byte>, allowed: seq<byte>) returns (r: bool)
    ensures r <==> Accepts(lib, requestOrigin, allowed)
  {
    if requestOrigin == [] || allowed == [] {
      return false;
    }
    ghost var steps: nat;
    if Contains(allowed, SCHEME) {
      if STAR in allowed {
        r, steps := WildcardMatch(lib.lower(requestOrigin), lib.lower(allowed));
        return r;
      }
      return lib.equalFold(requestOrigin, allowed);
    }
    var host := lib.host(requestOrigin);
    if host == [] {
      return false;
    }
    if STAR in allowed {
      r, steps := WildcardMatch(lib.lower(host), lib.lower(allowed));
      return r;
    }
    return lib.equalFold(host, allowed);
  }

  method ResolveOrigin(lib: Library, c: Config, requestOrigin: seq<byte>) returns (r: seq<byte>)
    ensures Resolves(lib, c, requestOrigin, r)
  {
    for i := 0 to |c.allowOrigins|
      invariant forall j :: 0 <= j < i ==> !Decides(lib, requestOrigin, c.allowOrigins[j])
    {
      var allowed := c.allowOrigins[i];
      if allowed == [STAR] {
        assert FirstDecision(lib, c, requestOrigin, i);
        if c.allowCredentials && requestOrigin != [] {
          return requestOrigin;
        }
        return [STAR];
      }
      var matches := OriginMatches(lib, requestOrigin, allowed);
      if matches {
        assert FirstDecision(lib, c, requestOrigin, i);
        return requestOrigin;
      }
    }
    return [];
  }

  // ------------------------------------------------------------------ promises

  /** If any entry settles the answer, one is the first to do so. */
  lemma {:induction false} SomeFirst(lib: Library, c: Config, origin: seq<byte>, n: nat) returns (i: nat)
    requires n < |c.allowOrigins| && Decides(lib, origin, c.allowOrigins[n])
    ensures FirstDecision(lib, c, origin, i)
  {
    if j :| 0 <= j < n && Decides(lib, origin, c.allowOrigins[j]) {
      i := SomeFirst(lib, c, origin, j);
    } else {
      i := n;
    }
  }

  /**
    A header is sent if and only if some entry is a lone star, or is not empty and matches
    the origin, or its host, which is not empty either; and it is a star or the origin itself.
   */
  lemma AdmittedIff(lib: Library, c: Config, origin: seq<byte>, r: seq<byte>)
    requires Resolves(lib, c, origin, r)
    ensures r != [] <==> Admits(lib, c, origin)
    ensures r == [] || r == [STAR] || r == origin
  {
    if n :| 0 <= n < |c.allowOrigins| && Decides(lib, origin, c.allowOrigins[n]) {
      var i := SomeFirst(lib, c, origin, n);
      assert r == Answer(c, origin, c.allowOrigins[i]);
    }
  }

  /**
    The value that is answered: the entry that decides is a lone star and the answer is a star,
    unless credentials are allowed and the request names an origin; in every other case it
    is the request's own origin.
   */
  lemma AnswerIs(lib: Library, c: Config, origin: seq<byte>, r: seq<byte>, i: nat)
    requires Resolves(lib, c, origin, r) && FirstDecision(lib, c, origin, i)
    ensures c.allowOrigins[i] == [STAR] ==> r == if c.allowCredentials && origin != [] then origin else [STAR]
    ensures c.allowOrigins[i] != [STAR] ==> r == origin && origin != []
  {
  }

  /** A credentialed request that names its origin is never answered with a bare star. */
  lemma NoStarWithCredentials(lib: Library, c: Config, origin: seq<byte>, r: seq<byte>)
    requires Resolves(lib, c, origin, r) && c.allowCredentials && origin != []
    ensures r == if Admits(lib, c, origin) then origin else []
  {
    if n :| 0 <= n < |c.allowOrigins| && Decides(lib, origin, c.allowOrigins[n]) {
      var i := SomeFirst(lib, c, origin, n);
      AnswerIs(lib, c, origin, r, i);
    }
  }

  lemma ResolvedOnce(lib: Library, c: Config, origin: seq<byte>, r: seq<byte>, r': seq<byte>)
    requires Resolves(lib, c, origin, r) && Resolves(lib, c, origin, r')
    ensures r == r'
  {
    if n :| 0 <= n < |c.allowOrigins| && Decides(lib, origin, c.allowOrigins[n]) {
      var i := SomeFirst(lib, c, origin, n);
      assert r == Answer(c, origin, c.allowOrigins[i]);
    }
  }

  /** The default list, and any list of empty entries, admits no origin at all. */
  lemma DefaultAdmitsNothing(lib: Library, c: Config, origin: seq<byte>, r: seq<byte>)
    requires forall i :: 0 <= i < |c.allowOrigins| ==> c.allowOrigins[i] == []
    requires Resolves(lib, c, origin, r)
    ensures r == []
  {
    AdmittedIff(lib, c, origin, r);
  }

  /**
    An entry without a star admits the origin that it spells, up to case, when it holds a scheme
    separator, and otherwise the origins whose host it spells.
   */
  lemma PlainEntryIff(lib: Library, origin: seq<byte>, allowed: seq<byte>)
    requires origin != [] && allowed != [] && STAR !in allowed
    ensures Contains(allowed, SCHEME) ==> (Decides(lib, origin, allowed) <==> lib.equalFold(origin, allowed))
    ensures !Contains(allowed, SCHEME) ==>
      (Decides(lib, origin, allowed) <==> lib.host(origin) != [] && lib.equalFold(lib.host(origin), allowed))
  {
  }

  /** An entry that ends in its only star admits exactly the hosts, or origins, that start like it. */
  lemma PrefixEntryIff(lib: Library, origin: seq<byte>, prefix: seq<byte>)
    requires origin != [] && prefix != [] && lib.lower(prefix + [STAR]) == lib.lower(prefix) + [STAR]
    requires STAR !in lib.lower(prefix)
    ensures var whole := Contains(prefix + [STAR], SCHEME);
      Decides(lib, origin, prefix + [STAR])
      <==> (whole || lib.host(origin) != [])
           && lib.lower(prefix) <= lib.lower(if whole then origin else lib.host(origin))
  {
    var value := lib.lower(Subject(lib, origin, prefix + [STAR]));
    PrefixPattern(value, lib.lower(prefix));
    MatchesIsLanguage(value, lib.lower(prefix) + [STAR]);
  }

  lemma PrefixPattern(value: seq<byte>, prefix: seq<byte>)
    requires STAR !in prefix
    ensures Matches(value, prefix + [STAR]) <==> prefix <= value
  {
    MatchesLiteral(value, prefix, [STAR]);
    if prefix <= value {
      var rest := value[|prefix|..];
      assert Matches(rest[|rest|..], [STAR][1..]);
    }
  }

  /** A request without an Origin header is answered only by a lone star. */
  lemma NoOriginIff(lib: Library, c: Config)
    ensures Admits(lib, c, []) <==> [STAR] in c.allowOrigins
  {
    if [STAR] in c.allowOrigins { StarAdmits(lib, c, []); }
  }

  lemma StarAdmits(lib: Library, c: Config, origin: seq<byte>)
    requires [STAR] in c.allowOrigins
    ensures Admits(lib, c, origin)
  {
    var i :| 0 <= i < |c.allowOrigins| && c.allowOrigins[i] == [STAR];
    assert Decides(lib, origin, c.allowOrigins[i]);
  }

  /** Filling the stars of a pattern keeps a scheme separator that it holds. */
  lemma {:induction false} FillKeepsScheme(pattern: seq<byte>, texts: seq<seq<byte>>, i: nat)
    requires |texts| == Stars(pattern) && i <= |pattern| && SCHEME <= pattern[i..]
    ensures Contains(Fill(pattern, texts), SCHEME)
  {
    if i == 0 {
      FillStartsWithScheme(pattern, texts);
    } else {
      var rest := pattern[1..];
      assert rest[i - 1..] == pattern[i..];
      var first := if pattern[0] == STAR then texts[0] else [pattern[0]];
      var more := if pattern[0] == STAR then texts[1..] else texts;
      FillKeepsScheme(rest, more, i - 1);
      ContainsLater(first, Fill(rest, more));
    }
  }

  lemma FillStartsWithScheme(pattern: seq<byte>, texts: seq<seq<byte>>)
    requires |texts| == Stars(pattern) && SCHEME <= pattern
    ensures Contains(Fill(pattern, texts), SCHEME)
  {
    var p1, p2, p3 := pattern[1..], pattern[2..], pattern[3..];
    assert pattern[0] == SCHEME[0] && pattern[1] == SCHEME[1] && pattern[2] == SCHEME[2];
    assert p1[1..] == p2 && p2[1..] == p3;
    assert Fill(pattern, texts) == [pattern[0]] + Fill(p1, texts);
    assert Fill(p1, texts) == [pattern[1]] + Fill(p2, texts);
    assert Fill(p2, texts) == [pattern[2]] + Fill(p3, texts);
    assert Fill(pattern, texts) == SCHEME + Fill(p3, texts);
    assert Fill(pattern, texts)[0..] == Fill(pattern, texts);
  }

  lemma ContainsLater(a: seq<byte>, b: seq<byte>)
    requires Contains(b, SCHEME)
    ensures Contains(a + b, SCHEME)
  {
    var i :| 0 <= i <= |b| && SCHEME <= b[i..];
    assert (a + b)[|a| + i..] == b[i..];
  }

  /** Whatever matches a pattern with a scheme separator has one itself. */
  lemma MatchKeepsScheme(value: seq<byte>, pattern: seq<byte>)
    requires InLanguage(value, pattern) && Contains(pattern, SCHEME)
    ensures Contains(value, SCHEME)
  {
    var texts :| |texts| == Stars(pattern) && Fill(pattern, texts) == value;
    var i :| 0 <= i <= |pattern| && SCHEME <= pattern[i..];
    FillKeepsScheme(pattern, texts, i);
  }

  /**
    An origin without host and scheme separator, such as "null", for a library that keeps
    separators when it lower-cases, and does not equate texts with and without one.
   */
  ghost predicate Hostless(lib: Library, origin: seq<byte>) {
    && origin != [] && lib.host(origin) == [] && !Contains(lib.lower(origin), SCHEME)
    && (forall text :: Contains(text, SCHEME) ==> Contains(lib.lower(text), SCHEME))
    && (forall text :: Contains(text, SCHEME) ==> !lib.equalFold(origin, text))
  }

  /** No entry but a lone star admits such an origin. */
  lemma HostlessOriginIff(lib: Library, c: Config, origin: seq<byte>)
    requires Hostless(lib, origin)
    ensures Admits(lib, c, origin) <==> [STAR] in c.allowOrigins
  {
    if [STAR] in c.allowOrigins { StarAdmits(lib, c, origin); }
    forall i | 0 <= i < |c.allowOrigins| ensures !Accepts(lib, origin, c.allowOrigins[i]) {
      HostlessIsNotAccepted(lib, origin, c.allowOrigins[i]);
    }
  }

  lemma HostlessIsNotAccepted(lib: Library, origin: seq<byte>, allowed: seq<byte>)
    requires Hostless(lib, origin)
    ensures !Accepts(lib, origin, allowed)
  {
    if Contains(allowed, SCHEME) && STAR in allowed && InLanguage(lib.lower(origin), lib.lower(allowed)) {
      MatchKeepsScheme(lib.lower(origin), lib.lower(allowed));
    }
  }

  /** So what a list has to hold to admit every origin that a request may name is a lone star. */
  lemma EveryOriginIff(lib: Library, c: Config, hostless: seq<byte>)
    requires Hostless(lib, hostless)
    ensures (forall origin :: origin != [] ==> Admits(lib, c, origin)) <==> [STAR] in c.allowOrigins
  {
    HostlessOriginIff(lib, c, hostless);
    if [STAR] in c.allowOrigins {
      forall origin | origin != [] ensures Admits(lib, c, origin) {
        StarAdmits(lib, c, origin);
      }
    }
  }
}
