/** The limiter's keys: one per client, method and route. */
module LimiterKeys {
  import opened Text

  /** Upper-casing of ASCII letters; method tokens have no others. */
  function UpperChar(c: char): char {
    if 'a' <= c <= 'z' then (c as int - 'a' as int + 'A' as int) as char else c
  }

  function Upper(s: string): string {
    if s == "" then "" else [UpperChar(s[0])] + Upper(s[1..])
  }

  /** The method as the key spells it. */
  function Verb(verb: string): string {
    if Upper(verb) == "" then "GET" else Upper(verb)
  }

  function BuildKey(ip: string, verb: string, path: string): string {
    "rl:" + ip + ":" + Verb(verb) + ":" + path
  }

  /** What the HTTP layer guarantees: an address has no slash, a method is a token (section 5.6.2 of RFC 9110), and a
      route starts with a slash. Colons may occur in the address and in the route. */
  predicate WellFormed(ip: string, verb: string, path: string) {
    '/' !in ip && '/' !in verb && ':' !in verb && path != "" && path[0] == '/'
  }

  lemma {:induction false} UpperLacks(s: string, c: char)
    requires c !in s && !('A' <= c <= 'Z')
    ensures c !in Upper(s)
  {
    if s == "" {
    } else {
      assert s[0] in s;
      UpperLacks(s[1..], c);
    }
  }

  /** The keys of well-formed requests differ as soon as the client, the method or the route does. */
  lemma BuildKeyInjective(ip: string, verb: string, path: string, ip': string, verb': string, path': string)
    requires WellFormed(ip, verb, path) && WellFormed(ip', verb', path')
    ensures BuildKey(ip, verb, path) == BuildKey(ip', verb', path') <==>
      ip == ip' && Verb(verb) == Verb(verb') && path == path'
  {
    UpperLacks(verb, '/');
    UpperLacks(verb, ':');
    UpperLacks(verb', '/');
    UpperLacks(verb', ':');
    if BuildKey(ip, verb, path) == BuildKey(ip', verb', path') {
      var head, head' := "rl:" + ip + ":" + Verb(verb), "rl:" + ip' + ":" + Verb(verb');
      var front, front' := head + ":", head' + ":";
      assert BuildKey(ip, verb, path) == front + ['/'] + path[1..];
      assert BuildKey(ip', verb', path') == front' + ['/'] + path'[1..];
      CutAtFirst(front, path[1..], front', path'[1..], '/');
      assert path == ['/'] + path[1..] && path' == ['/'] + path'[1..];
      assert head == front[..|front| - 1] && head' == front'[..|front'| - 1];
      assert head == ("rl:" + ip) + [':'] + Verb(verb) && head' == ("rl:" + ip') + [':'] + Verb(verb');
      CutAtLast("rl:" + ip, Verb(verb), "rl:" + ip', Verb(verb'), ':');
      assert ip == ("rl:" + ip)[3..] && ip' == ("rl:" + ip')[3..];
    }
  }

  /** The two texts differ at most in the case of ASCII letters. */
  predicate SameIgnoringCase(s: string, t: string) {
    |s| == |t| && forall i :: 0 <= i < |s| ==>
      || s[i] == t[i]
      || ('A' <= s[i] <= 'Z' && s[i] as int + 32 == t[i] as int)
      || ('A' <= t[i] <= 'Z' && t[i] as int + 32 == s[i] as int)
  }

  lemma {:induction false} UpperAt(s: string, i: nat)
    requires i < |s|
    ensures |Upper(s)| == |s| && Upper(s)[i] == UpperChar(s[i])
  {
    if |s| == 1 {
      assert s[1..] == "";
    } else {
      UpperAt(s[1..], if i == 0 then 0 else i - 1);
    }
  }

  lemma UpperIgnoresCase(s: string, t: string)
    ensures Upper(s) == Upper(t) <==> SameIgnoringCase(s, t)
  {
    UpperLength(s);
    UpperLength(t);
    forall i | 0 <= i < |s| ensures Upper(s)[i] == UpperChar(s[i]) { UpperAt(s, i); }
    forall i | 0 <= i < |t| ensures Upper(t)[i] == UpperChar(t[i]) { UpperAt(t, i); }
  }

  lemma UpperLength(s: string)
    ensures |Upper(s)| == |s|
  {
    if s == "" {
    } else {
      UpperAt(s, 0);
    }
  }

  /** What a key says: an upper-case method as it stands, any other as its upper-case spelling, and none as GET. */
  lemma KeySpells(ip: string, verb: string, spelled: string, path: string)
    requires spelled != "" && forall i :: 0 <= i < |spelled| ==> !('a' <= spelled[i] <= 'z')
    ensures SameIgnoringCase(verb, spelled) ==> BuildKey(ip, verb, path) == "rl:" + ip + ":" + spelled + ":" + path
    ensures BuildKey(ip, "", path) == "rl:" + ip + ":GET:" + path
  {
    UpperIgnoresCase(verb, spelled);
    UpperLength(spelled);
    forall i | 0 <= i < |spelled| ensures Upper(spelled)[i] == spelled[i] { UpperAt(spelled, i); }
    assert Upper(spelled) == spelled;
    assert "rl:" + ip + ":" + "GET" + ":" + path == "rl:" + ip + ":GET:" + path;
  }
}
