/** Choosing a language from an Accept-Language header (section 12.5.4 of RFC 9110). This code takes the first supported
    element and ignores weights. */
module AcceptLanguage {
  import opened Options

  datatype Language = ZhCN | EnUS

  const DEFAULT := ZhCN

  /** The supported tags, in lower case. */
  const SUPPORTED := map["zh" := ZhCN, "zh-cn" := ZhCN, "en" := EnUS, "en-us" := EnUS]

  /** Lower-casing. No other character of Unicode lower-cases into a letter of the supported tags, so ASCII is exact. */
  function LowerChar(c: char): char {
    if 'A' <= c <= 'Z' then (c as int - 'A' as int + 'a' as int) as char else c
  }

  function Lower(s: string): (t: string)
    ensures |t| == |s|
  {
    if s == "" then "" else [LowerChar(s[0])] + Lower(s[1..])
  }

  /** Unicode's white space. */
  predicate IsSpace(c: char) {
    var n := c as int;
    9 <= n <= 13 || n == 0x20 || n == 0x85 || n == 0xA0 || n == 0x1680 || 0x2000 <= n <= 0x200A
    || n == 0x2028 || n == 0x2029 || n == 0x202F || n == 0x205F || n == 0x3000
  }

  function TrimLeft(s: string): string {
    if s != "" && IsSpace(s[0]) then TrimLeft(s[1..]) else s
  }

  function TrimRight(s: string): string {
    if s != "" && IsSpace(s[|s| - 1]) then TrimRight(s[..|s| - 1]) else s
  }

  function TrimSpace(s: string): string {
    TrimRight(TrimLeft(s))
  }

  /** The position of the first occurrence; the length if there is none. */
  function IndexOf(s: string, c: char): (k: nat)
    ensures k <= |s| && c !in s[..k] && (k < |s| ==> s[k] == c)
  {
    if s == "" || s[0] == c then 0 else
      assert s[..1 + IndexOf(s[1..], c)] == [s[0]] + s[1..][..IndexOf(s[1..], c)];
      1 + IndexOf(s[1..], c)
  }

  function Split(s: string, sep: char): (parts: seq<string>)
    ensures parts != []
    decreases |s|
  {
    var k := IndexOf(s, sep);
    if k == |s| then [s] else [s[..k]] + Split(s[k + 1..], sep)
  }

  /** The text before the first separator, if there is one. */
  function Before(s: string, sep: char): string {
    s[..IndexOf(s, sep)]
  }

  /** The supported language of one list element: its range, or the primary subtag of its range. */
  function MatchElement(element: string): Option<Language> {
    var tag := Lower(TrimSpace(Before(element, ';')));
    var primary := Before(tag, '-');
    if tag in SUPPORTED then Some(SUPPORTED[tag])
    else if 0 < |primary| < |tag| && primary in SUPPORTED then Some(SUPPORTED[primary])
    else None
  }

  /** The language is that of the first element that has one, or the default if none has. */
  ghost predicate IsFirstMatch(elements: seq<string>, language: Language) {
    || (language == DEFAULT && forall i :: 0 <= i < |elements| ==> MatchElement(elements[i]).None?)
    || (exists i :: 0 <= i < |elements| && MatchElement(elements[i]) == Some(language)
          && forall j :: 0 <= j < i ==> MatchElement(elements[j]).None?)
  }

  method ParseAcceptLanguage(header: string) returns (language: Language)
    ensures IsFirstMatch(Split(header, ','), language)
    ensures language == LanguageOf(header)
  {
    var parts := Split(header, ',');
    if header == "" {
      assert MatchElement("").None? by {
        assert TrimSpace(Before("", ';')) == "";
      }
      return DEFAULT;
    }
    for i := 0 to |parts|
      invariant forall j :: 0 <= j < i ==> MatchElement(parts[j]).None?
      invariant FirstMatch(parts) == FirstMatch(parts[i..])
    {
      var tag := Lower(TrimSpace(Before(parts[i], ';')));
      if tag in SUPPORTED {
        return SUPPORTED[tag];
      }
      var idx := IndexOf(tag, '-');
      if 0 < idx < |tag| {
        if tag[..idx] in SUPPORTED {
          return SUPPORTED[tag[..idx]];
        }
      }
    }
    language := DEFAULT;
  }

  /** The first match among the elements. */
  function FirstMatch(elements: seq<string>): Option<Language> {
    if elements == [] then None
    else if MatchElement(elements[0]).Some? then MatchElement(elements[0])
    else FirstMatch(elements[1..])
  }

  function LanguageOf(header: string): Language {
    match FirstMatch(Split(header, ','))
    case Some(language) => language
    case None => DEFAULT
  }

  // ----- Splitting and joining -----

  function Join(parts: seq<string>, sep: char): string {
    if parts == [] then "" else if |parts| == 1 then parts[0] else parts[0] + [sep] + Join(parts[1..], sep)
  }

  /** The parts put together again are the header, and no part contains a separator. */
  lemma {:induction false} SplitIsInverse(s: string, sep: char)
    ensures Join(Split(s, sep), sep) == s
    ensures forall part :: part in Split(s, sep) ==> sep !in part
    decreases |s|
  {
    var k := IndexOf(s, sep);
    if k == |s| {
      assert s[..k] == s;
    } else {
      var first, rest := s[..k], Split(s[k + 1..], sep);
      assert s == first + [sep] + s[k + 1..];
      SplitIsInverse(s[k + 1..], sep);
      assert Split(s, sep) == [first] + rest && ([first] + rest)[1..] == rest;
      assert Join([first] + rest, sep) == first + [sep] + Join(rest, sep);
    }
  }

  lemma IndexIs(s: string, c: char, k: nat)
    requires k < |s| && c !in s[..k] && s[k] == c
    ensures IndexOf(s, c) == k
  {
    assert forall j :: 0 <= j < k ==> s[..k][j] == s[j];
    assert forall j :: 0 <= j < IndexOf(s, c) ==> s[..IndexOf(s, c)][j] == s[j];
  }

  /** A text without a separator in front of one is the first part. */
  lemma SplitFirst(first: string, rest: string, sep: char)
    requires sep !in first
    ensures Split(first + [sep] + rest, sep) == [first] + Split(rest, sep)
  {
    var s := first + [sep] + rest;
    assert s[..|first|] == first && s[|first| + 1..] == rest;
    IndexIs(s, sep, |first|);
  }

  lemma {:induction false} SplitConcat(a: string, b: string, sep: char)
    ensures Split(a + [sep] + b, sep) == Split(a, sep) + Split(b, sep)
    decreases |a|
  {
    var k := IndexOf(a, sep);
    if k == |a| {
      assert a[..k] == a;
      SplitFirst(a, b, sep);
    } else {
      var first, rest := a[..k], a[k + 1..];
      var tail := rest + [sep] + b;
      calc {
        Split(a + [sep] + b, sep);
        { assert a + [sep] + b == first + [sep] + tail; }
        Split(first + [sep] + tail, sep);
        { SplitFirst(first, tail, sep); }
        [first] + Split(tail, sep);
        { SplitConcat(rest, b, sep); }
        [first] + (Split(rest, sep) + Split(b, sep));
        ([first] + Split(rest, sep)) + Split(b, sep);
        Split(a, sep) + Split(b, sep);
      }
    }
  }

  lemma {:induction false} FirstMatchConcat(a: seq<string>, b: seq<string>)
    ensures FirstMatch(a + b) == if FirstMatch(a).Some? then FirstMatch(a) else FirstMatch(b)
    decreases |a|
  {
    if a == [] {
      assert a + b == b;
    } else {
      FirstMatchConcat(a[1..], b);
      assert (a + b)[1..] == a[1..] + b;
    }
  }

  /** Two header lines joined by a comma (section 5.3 of RFC 9110) select what the first selects, or else the second. */
  lemma JoinedHeaders(a: string, b: string)
    ensures LanguageOf(a + "," + b) ==
      match FirstMatch(Split(a, ','))
      case Some(language) => language
      case None => LanguageOf(b)
  {
    SplitConcat(a, b, ',');
    FirstMatchConcat(Split(a, ','), Split(b, ','));
  }

  /** Parameters, weights among them, make no difference to an element. */
  lemma WeightsIgnored(languageRange: string, parameters: string)
    requires ';' !in languageRange
    ensures MatchElement(languageRange + ";" + parameters) == MatchElement(languageRange)
  {
    var s := languageRange + ";" + parameters;
    assert s[..|languageRange|] == languageRange;
    IndexIs(s, ';', |languageRange|);
    assert IndexOf(languageRange, ';') == |languageRange|;
    assert languageRange[..|languageRange|] == languageRange;
  }

  // ----- Which language an element selects -----

  /** The text is the tag, but for the case of letters; tags are given in lower case. */
  predicate IsTag(t: string, tag: string) {
    |t| == |tag| && forall i :: 0 <= i < |t| ==>
      t[i] == tag[i] || ('A' <= t[i] <= 'Z' && t[i] as int + 32 == tag[i] as int)
  }

  /** The text is the language, or the language with any further subtags. */
  predicate Names(t: string, language: string) {
    IsTag(t, language) || (|t| > |language| && IsTag(t[..|language| + 1], language + "-"))
  }

  predicate Blank(s: string) {
    forall i :: 0 <= i < |s| ==> IsSpace(s[i])
  }

  lemma SpacesAreBlank()
    ensures Blank(" \t\r\n")
    ensures forall c :: 'a' <= c <= 'z' || 'A' <= c <= 'Z' || '0' <= c <= '9' || c in "-,;*=." ==> !IsSpace(c)
  {
  }

  /** The list element reads so: this text between white space, and perhaps parameters after it. */
  predicate Reads(element: string, before: string, t: string, after: string, parameters: string) {
    && element == before + t + after + parameters
    && Blank(before) && Blank(after) && ';' !in before + t + after
    && (t != "" ==> !IsSpace(t[0]) && !IsSpace(t[|t| - 1]))
    && (parameters != "" ==> parameters[0] == ';')
  }

  lemma {:induction false} TrimLeftOf(before: string, s: string)
    requires Blank(before) && (s != "" ==> !IsSpace(s[0]))
    ensures TrimLeft(before + s) == s
  {
    if before == "" {
      assert before + s == s;
    } else {
      assert (before + s)[1..] == before[1..] + s;
      TrimLeftOf(before[1..], s);
    }
  }

  lemma {:induction false} TrimRightOf(s: string, after: string)
    requires Blank(after) && (s != "" ==> !IsSpace(s[|s| - 1]))
    ensures TrimRight(s + after) == s
  {
    if after == "" {
      assert s + after == s;
    } else {
      var init := after[..|after| - 1];
      assert (s + after)[..|s + after| - 1] == s + init;
      TrimRightOf(s, init);
    }
  }

  lemma TrimSpaceOf(before: string, t: string, after: string)
    requires Blank(before) && Blank(after)
    requires t != "" ==> !IsSpace(t[0]) && !IsSpace(t[|t| - 1])
    ensures TrimSpace(before + t + after) == t
  {
    assert before + t + after == before + (t + after);
    if t == "" {
      assert t + after == after && after == after + "";
      TrimLeftOf(after, "");
      TrimLeftOf(before + after, "");
      assert before + (t + after) == before + after + "";
    } else {
      TrimLeftOf(before, t + after);
      TrimRightOf(t, after);
    }
  }

  lemma {:induction false} TrimLeftSplits(s: string) returns (before: string)
    ensures s == before + TrimLeft(s) && Blank(before)
    ensures TrimLeft(s) != "" ==> !IsSpace(TrimLeft(s)[0])
  {
    if s == "" || !IsSpace(s[0]) {
      before := "";
    } else {
      var rest := TrimLeftSplits(s[1..]);
      before := [s[0]] + rest;
    }
  }

  lemma {:induction false} TrimRightSplits(s: string) returns (after: string)
    ensures s == TrimRight(s) + after && Blank(after)
    ensures TrimRight(s) != "" ==> !IsSpace(TrimRight(s)[|TrimRight(s)| - 1]) && TrimRight(s)[0] == s[0]
  {
    if s == "" || !IsSpace(s[|s| - 1]) {
      after := "";
    } else {
      var rest := TrimRightSplits(s[..|s| - 1]);
      after := rest + [s[|s| - 1]];
    }
  }

  /** Every element reads in some such way. */
  lemma EveryElementReads(element: string) returns (before: string, t: string, after: string, parameters: string)
    ensures Reads(element, before, t, after, parameters)
  {
    var s := Before(element, ';');
    parameters := element[|s|..];
    before := TrimLeftSplits(s);
    after := TrimRightSplits(TrimLeft(s));
    t := TrimSpace(s);
    assert before + t + after == before + (t + after) == s;
  }

  lemma RangeOf(element: string, before: string, t: string, after: string, parameters: string)
    requires Reads(element, before, t, after, parameters)
    ensures TrimSpace(Before(element, ';')) == t
  {
    var s := before + t + after;
    assert element == s + parameters;
    if parameters == "" {
      assert element == s;
      assert IndexOf(element, ';') == |s|;
      assert s[..|s|] == s;
    } else {
      assert element[..|s|] == s && element[|s|] == ';';
      IndexIs(element, ';', |s|);
    }
    TrimSpaceOf(before, t, after);
  }

  lemma {:induction false} LowerAt(s: string, i: nat)
    requires i < |s|
    ensures Lower(s)[i] == LowerChar(s[i])
  {
    if i == 0 {
    } else {
      LowerAt(s[1..], i - 1);
    }
  }

  lemma LowerIsTag(t: string, tag: string)
    requires forall i :: 0 <= i < |tag| ==> !('A' <= tag[i] <= 'Z')
    ensures Lower(t) == tag <==> IsTag(t, tag)
  {
    forall i | 0 <= i < |t| ensures Lower(t)[i] == LowerChar(t[i]) {
      LowerAt(t, i);
    }
  }

  lemma LowerOfPrefix(s: string, n: nat)
    requires n <= |s|
    ensures Lower(s[..n]) == Lower(s)[..n]
  {
    forall i | 0 <= i < n ensures Lower(s[..n])[i] == Lower(s)[i] {
      LowerAt(s, i);
      LowerAt(s[..n], i);
    }
  }

  lemma BeforeIs(tag: string, language: string)
    requires '-' !in language
    ensures (Before(tag, '-') == language && |language| < |tag|) <==>
      (|language| < |tag| && tag[..|language| + 1] == language + "-")
  {
    var n := |language|;
    if n < |tag| && tag[..n + 1] == language + "-" {
      assert tag[..n] == (language + "-")[..n] == language;
      assert tag[n] == (language + "-")[n] == '-';
      IndexIs(tag, '-', n);
    }
  }

  /** The part before the first hyphen is the language exactly if the text starts with the language and a hyphen. */
  lemma PrimaryIs(t: string, language: string)
    requires '-' !in language && forall i :: 0 <= i < |language| ==> !('A' <= language[i] <= 'Z')
    ensures (Before(Lower(t), '-') == language && |language| < |Lower(t)|) <==>
      (|t| > |language| && IsTag(t[..|language| + 1], language + "-"))
  {
    BeforeIs(Lower(t), language);
    if |t| > |language| {
      LowerOfPrefix(t, |language| + 1);
      LowerIsTag(t[..|language| + 1], language + "-");
    }
  }

  /** What an element selects, exactly: English if its text is en or starts with en-, Chinese if it is zh or starts with
      zh-, letter case aside, and nothing otherwise. */
  lemma ElementSelects(element: string, before: string, t: string, after: string, parameters: string)
    requires Reads(element, before, t, after, parameters)
    ensures MatchElement(element) == if Names(t, "en") then Some(EnUS) else if Names(t, "zh") then Some(ZhCN) else None
  {
    RangeOf(element, before, t, after, parameters);
    LowerIsTag(t, "en");
    LowerIsTag(t, "zh");
    PrimaryIs(t, "en");
    PrimaryIs(t, "zh");
    RegionsArePrimary(Lower(t));
  }

  /** The tags with a region are also matched by their primary subtag. */
  lemma RegionsArePrimary(tag: string)
    ensures tag == "en-us" ==> Before(tag, '-') == "en"
    ensures tag == "zh-cn" ==> Before(tag, '-') == "zh"
    ensures Before(tag, '-') !in {"en-us", "zh-cn"}
  {
    if tag == "en-us" || tag == "zh-cn" {
      assert '-' !in tag[..2] && tag[2] == '-';
      IndexIs(tag, '-', 2);
    }
    assert '-' !in Before(tag, '-');
    assert "en-us"[2] == '-' && "zh-cn"[2] == '-';
  }

  /** What a header selects, exactly: the first element decides if it selects a language, and is passed over if not; a
      header without such an element selects Chinese. */
  lemma HeaderSelects(
    element: string, before: string, t: string, after: string, parameters: string, more: Option<string>)
    requires Reads(element, before, t, after, parameters) && ',' !in element
    ensures LanguageOf(if more.Some? then element + "," + more.value else element)
      == if Names(t, "en") then EnUS
         else if Names(t, "zh") then ZhCN
         else if more.Some? then LanguageOf(more.value)
         else ZhCN
  {
    ElementSelects(element, before, t, after, parameters);
    if more.Some? {
      SplitFirst(element, more.value, ',');
    } else {
      assert IndexOf(element, ',') == |element|;
      assert Split(element, ',') == [element];
      assert FirstMatch([element]) == MatchElement(element);
    }
  }
}
