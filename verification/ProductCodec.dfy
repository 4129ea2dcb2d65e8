/** The cache payload: the JSON text json.Marshal gives for a product, and its decoding.
    Field order and names follow the struct tags; DeletedAt is not part of the text. */
module ProductCodec {
  import opened Options
  import opened Products
  import opened Text

  /** The marker stored for an id that has no record. */
  const NULL_MARKER := "null"

  /** The three kinds of member the record has. */
  datatype Kind = IntKind | TextKind | CentsKind

  datatype Member = IntMember(n: int) | TextMember(s: string) | CentsMember(cents: int) {
    function Kind(): Kind {
      match this
      case IntMember(_) => IntKind
      case TextMember(_) => TextKind
      case CentsMember(_) => CentsKind
    }
  }

  // ----- Numbers -----

  function Magnitude(n: int): nat {
    if n < 0 then -n else n
  }

  function Sign(n: int): string {
    if n < 0 then "-" else ""
  }

  /** The shortest fraction: nothing for whole amounts, one digit when the second is zero. */
  function Fraction(f: nat): string
    requires f < 100
  {
    if f == 0 then ""
    else if f % 10 == 0 then ['.', DigitChar(f / 10)]
    else ['.', DigitChar(f / 10), DigitChar(f % 10)]
  }

  function EncodeAmount(m: nat): string {
    Decimal(m / 100) + Fraction(m % 100)
  }

  function EncodeCents(c: int): string {
    Sign(c) + EncodeAmount(Magnitude(c))
  }

  function EncodeInt(n: int): string {
    Sign(n) + Decimal(Magnitude(n))
  }

  function ParseSign(s: string): (bool, string) {
    if s != "" && s[0] == '-' then (true, s[1..]) else (false, s)
  }

  function Signed(negative: bool, n: nat): int {
    if negative then -(n as int) else n as int
  }

  function ParseInt(s: string): Option<(int, string)> {
    var (negative, t) := ParseSign(s);
    match ParseNat(t)
    case None => None
    case Some((n, rest)) => Some((Signed(negative, n), rest))
  }

  /** A fraction of one or two digits, in hundredths. */
  function ParseFraction(s: string): (nat, string) {
    if |s| < 2 || s[0] != '.' || !IsDigit(s[1]) then (0, s)
    else if |s| == 2 || !IsDigit(s[2]) then (10 * DigitValue(s[1]), s[2..])
    else (10 * DigitValue(s[1]) + DigitValue(s[2]), s[3..])
  }

  function ParseAmount(s: string): Option<(nat, string)> {
    match ParseNat(s)
    case None => None
    case Some((whole, u)) =>
      var (f, rest) := ParseFraction(u);
      Some((100 * whole + f, rest))
  }

  function ParseCents(s: string): Option<(int, string)> {
    var (negative, t) := ParseSign(s);
    match ParseAmount(t)
    case None => None
    case Some((m, rest)) => Some((Signed(negative, m), rest))
  }

  /** The text that follows a number inside an object. */
  predicate EndsNumber(rest: string) {
    rest != "" && !IsDigit(rest[0]) && rest[0] != '.'
  }

  lemma SignRoundTrip(n: int, t: string)
    requires t != "" && IsDigit(t[0])
    ensures ParseSign(Sign(n) + t) == (n < 0, t)
  {
    if n < 0 {
      assert ("-" + t)[1..] == t;
    } else {
      assert "" + t == t;
    }
  }

  lemma IntRoundTrip(n: int, rest: string)
    requires EndsNumber(rest)
    ensures ParseInt(EncodeInt(n) + rest) == Some((n, rest))
  {
    var m := Magnitude(n);
    DecimalRoundTrip(m);
    SignRoundTrip(n, Decimal(m) + rest);
    assert EncodeInt(n) + rest == Sign(n) + (Decimal(m) + rest);
    ParseNatRoundTrip(m, rest);
  }

  lemma FractionRoundTrip(f: nat, rest: string)
    requires f < 100 && EndsNumber(rest)
    ensures ParseFraction(Fraction(f) + rest) == (f, rest)
  {
    DigitRoundTrip(f / 10);
    DigitRoundTrip(f % 10);
    var s := Fraction(f) + rest;
    if f == 0 {
      assert s == rest;
    } else if f % 10 == 0 {
      assert s[2] == rest[0] && s[2..] == rest;
    } else {
      assert s[3..] == rest;
    }
  }

  lemma AmountRoundTrip(m: nat, rest: string)
    requires EndsNumber(rest)
    ensures ParseAmount(EncodeAmount(m) + rest) == Some((m, rest))
    ensures IsDigit((EncodeAmount(m) + rest)[0])
  {
    var u := Fraction(m % 100) + rest;
    DecimalRoundTrip(m / 100);
    assert EncodeAmount(m) + rest == Decimal(m / 100) + u;
    assert !IsDigit(u[0]);
    ParseNatRoundTrip(m / 100, u);
    FractionRoundTrip(m % 100, rest);
    ParseAmountOf(Decimal(m / 100) + u, m / 100, u, m % 100, rest);
  }

  lemma ParseAmountOf(s: string, whole: nat, u: string, f: nat, rest: string)
    requires ParseNat(s) == Some((whole, u)) && ParseFraction(u) == (f, rest)
    ensures ParseAmount(s) == Some((100 * whole + f, rest))
  {
  }

  lemma CentsRoundTrip(c: int, rest: string)
    requires EndsNumber(rest)
    ensures ParseCents(EncodeCents(c) + rest) == Some((c, rest))
  {
    var t := EncodeAmount(Magnitude(c)) + rest;
    AmountRoundTrip(Magnitude(c), rest);
    assert EncodeCents(c) + rest == Sign(c) + t;
    ParseCentsOf(EncodeCents(c) + rest, t, c, rest);
  }

  lemma ParseCentsOf(s: string, t: string, c: int, rest: string)
    requires s == Sign(c) + t && t != "" && IsDigit(t[0]) && ParseAmount(t) == Some((Magnitude(c), rest))
    ensures ParseCents(s) == Some((c, rest))
  {
    SignRoundTrip(c, t);
  }

  // ----- Strings -----

  function HexDigit(d: nat): char
    requires d < 16
  {
    if d < 10 then ('0' as int + d) as char else ('a' as int + d - 10) as char
  }

  function HexValue(c: char): Option<nat> {
    if '0' <= c <= '9' then Some((c as int - '0' as int) as nat)
    else if 'a' <= c <= 'f' then Some((c as int - 'a' as int + 10) as nat)
    else None
  }

  lemma HexRoundTrip(d: nat)
    requires d < 16
    ensures HexValue(HexDigit(d)) == Some(d)
  {
  }

  /** The four-digit escape of a character of the basic plane. */
  function UnicodeEscape(c: char): string
    requires c as int < 0x10000
  {
    var n := c as nat;
    ['\\', 'u', HexDigit(n / 16 / 16 / 16), HexDigit(n / 16 / 16 % 16), HexDigit(n / 16 % 16), HexDigit(n % 16)]
  }

  /** The characters json.Marshal always writes as a four-digit escape: other controls, the HTML-sensitive ones, and
      the two line separators. */
  predicate NeedsUnicodeEscape(c: char) {
    c as int < 0x20 || c in "<>&" || c as int == 0x2028 || c as int == 0x2029
  }

  /** The one-letter escape of a character, where there is one. */
  function ShortEscape(c: char): Option<char> {
    if c == '\"' then Some('\"')
    else if c == '\\' then Some('\\')
    else if c == '\n' then Some('n')
    else if c == '\r' then Some('r')
    else if c == '\t' then Some('t')
    else if c as int == 8 then Some('b')
    else if c as int == 12 then Some('f')
    else None
  }

  function ShortUnescape(e: char): Option<char> {
    if e == '\"' then Some('\"')
    else if e == '\\' then Some('\\')
    else if e == 'n' then Some('\n')
    else if e == 'r' then Some('\r')
    else if e == 't' then Some('\t')
    else if e == 'b' then Some(8 as char)
    else if e == 'f' then Some(12 as char)
    else None
  }

  function EscapeChar(c: char): (s: string)
    ensures s != "" && s[0] != '\"'
  {
    match ShortEscape(c)
    case Some(e) => ['\\', e]
    case None => if NeedsUnicodeEscape(c) then UnicodeEscape(c) else [c]
  }

  function Escape(s: string): string {
    if s == "" then "" else EscapeChar(s[0]) + Escape(s[1..])
  }

  function EncodeText(s: string): string {
    "\"" + (Escape(s) + "\"")
  }

  function ParseUnicode(s: string): Option<(char, string)> {
    if |s| < 4 then None else
    match (HexValue(s[0]), HexValue(s[1]), HexValue(s[2]), HexValue(s[3]))
    case (Some(a), Some(b), Some(c), Some(d)) =>
      var n := 16 * (16 * (16 * a + b) + c) + d;
      if n < 0xD800 then Some((n as char, s[4..])) else None
    case _ => None
  }

  /** One character of a string body, with what follows it. */
  function ParseChar(s: string): (r: Option<(char, string)>)
    ensures r.Some? ==> |r.value.1| < |s|
  {
    if s == "" || s[0] == '\"' then None
    else if s[0] != '\\' then Some((s[0], s[1..]))
    else if |s| < 2 then None
    else if s[1] == 'u' then ParseUnicode(s[2..])
    else match ShortUnescape(s[1])
         case Some(c) => Some((c, s[2..]))
         case None => None
  }

  /** A string body up to its closing quote. */
  function ParseBody(s: string): Option<(string, string)>
    decreases |s|
  {
    if s != "" && s[0] == '\"' then Some(("", s[1..])) else
    match ParseChar(s)
    case None => None
    case Some((c, t)) =>
      match ParseBody(t)
      case None => None
      case Some((body, rest)) => Some(([c] + body, rest))
  }

  function ParseText(s: string): Option<(string, string)> {
    if s != "" && s[0] == '\"' then ParseBody(s[1..]) else None
  }

  lemma UnicodeRoundTrip(c: char, rest: string)
    requires c as int < 0xD800
    ensures ParseChar(UnicodeEscape(c) + rest) == Some((c, rest))
  {
    var n := c as nat;
    var a, b, d, e := n / 16 / 16 / 16, n / 16 / 16 % 16, n / 16 % 16, n % 16;
    HexRoundTrip(a);
    HexRoundTrip(b);
    HexRoundTrip(d);
    HexRoundTrip(e);
    var body := [HexDigit(a), HexDigit(b), HexDigit(d), HexDigit(e)] + rest;
    assert (UnicodeEscape(c) + rest)[2..] == body && body[4..] == rest;
    assert ParseUnicode(body) == Some((c, rest));
  }

  lemma CharRoundTrip(c: char, rest: string)
    ensures ParseChar(EscapeChar(c) + rest) == Some((c, rest))
  {
    var s := EscapeChar(c) + rest;
    if ShortEscape(c).Some? {
      assert s[2..] == rest;
    } else if NeedsUnicodeEscape(c) {
      UnicodeRoundTrip(c, rest);
    } else {
      assert s[1..] == rest;
    }
  }

  lemma {:induction false} BodyRoundTrip(s: string, rest: string)
    ensures ParseBody(Escape(s) + ("\"" + rest)) == Some((s, rest))
  {
    if s == "" {
      assert Escape(s) + ("\"" + rest) == "\"" + rest;
      assert ("\"" + rest)[1..] == rest;
    } else {
      var tail := Escape(s[1..]) + ("\"" + rest);
      assert Escape(s) + ("\"" + rest) == EscapeChar(s[0]) + tail;
      CharRoundTrip(s[0], tail);
      BodyRoundTrip(s[1..], rest);
      assert [s[0]] + s[1..] == s;
    }
  }

  lemma TextRoundTrip(s: string, rest: string)
    ensures ParseText(EncodeText(s) + rest) == Some((s, rest))
  {
    BodyRoundTrip(s, rest);
    var body := Escape(s) + ("\"" + rest);
    assert EncodeText(s) + rest == "\"" + body;
    assert ("\"" + body)[1..] == body;
  }

  // ----- Objects -----

  function EncodeMember(m: Member): string {
    match m
    case IntMember(n) => EncodeInt(n)
    case TextMember(s) => EncodeText(s)
    case CentsMember(c) => EncodeCents(c)
  }

  function ParseMember(kind: Kind, s: string): Option<(Member, string)> {
    match kind
    case IntKind => (match ParseInt(s) case Some((n, rest)) => Some((IntMember(n), rest)) case None => None)
    case TextKind => (match ParseText(s) case Some((t, rest)) => Some((TextMember(t), rest)) case None => None)
    case CentsKind => (match ParseCents(s) case Some((c, rest)) => Some((CentsMember(c), rest)) case None => None)
  }

  lemma MemberRoundTrip(m: Member, rest: string)
    requires EndsNumber(rest)
    ensures ParseMember(m.Kind(), EncodeMember(m) + rest) == Some((m, rest))
  {
    match m
    case IntMember(n) => IntRoundTrip(n, rest);
    case TextMember(s) => TextRoundTrip(s, rest);
    case CentsMember(c) => CentsRoundTrip(c, rest);
  }

  /** The members of an object, each introduced by its separator and label, down to the closing brace. */
  function EncodeMembers(labels: seq<string>, members: seq<Member>): (s: string)
    requires |labels| == |members|
    ensures EndsNumber(s) || labels != []
  {
    if labels == [] then "}" else labels[0] + (EncodeMember(members[0]) + EncodeMembers(labels[1..], members[1..]))
  }

  function ParseMembers(labels: seq<string>, kinds: seq<Kind>, s: string): Option<seq<Member>>
    requires |labels| == |kinds|
  {
    if labels == [] then if s == "}" then Some([]) else None else
    match Expect(labels[0], s)
    case None => None
    case Some(t) =>
      match ParseMember(kinds[0], t)
      case None => None
      case Some((m, u)) =>
        match ParseMembers(labels[1..], kinds[1..], u)
        case None => None
        case Some(ms) => Some([m] + ms)
  }

  /** Labels are separators: none of them could continue a number. */
  predicate Separators(labels: seq<string>) {
    forall i :: 0 <= i < |labels| ==> EndsNumber(labels[i])
  }

  lemma {:induction false} MembersRoundTrip(labels: seq<string>, kinds: seq<Kind>, members: seq<Member>)
    requires |labels| == |kinds| == |members| && Separators(labels)
    requires forall i :: 0 <= i < |members| ==> members[i].Kind() == kinds[i]
    ensures ParseMembers(labels, kinds, EncodeMembers(labels, members)) == Some(members)
    ensures EndsNumber(EncodeMembers(labels, members))
  {
    if labels == [] {
    } else {
      var rest := EncodeMembers(labels[1..], members[1..]);
      MembersRoundTrip(labels[1..], kinds[1..], members[1..]);
      ExpectRoundTrip(labels[0], EncodeMember(members[0]) + rest);
      MemberRoundTrip(members[0], rest);
      assert [members[0]] + members[1..] == members;
    }
  }

  // ----- Products -----

  const LABELS := [
    "{\"id\":", ",\"created_at\":", ",\"updated_at\":", ",\"name\":", ",\"description\":",
    ",\"price\":", ",\"stock\":", ",\"status\":", ",\"category_id\":"]

  const KINDS := [IntKind, TextKind, TextKind, TextKind, TextKind, CentsKind, IntKind, IntKind, IntKind]

  function Members(p: Product): (ms: seq<Member>)
    ensures |ms| == |LABELS|
  {
    [IntMember(p.id), TextMember(p.createdAt), TextMember(p.updatedAt), TextMember(p.name), TextMember(p.description),
     CentsMember(p.price), IntMember(p.stock), IntMember(p.status), IntMember(p.categoryId)]
  }

  function FromMembers(ms: seq<Member>): Option<Product> {
    if |ms| == 9 && ms[0].IntMember? && ms[1].TextMember? && ms[2].TextMember? && ms[3].TextMember? && ms[4].TextMember?
       && ms[5].CentsMember? && ms[6].IntMember? && ms[7].IntMember? && ms[8].IntMember?
       && ms[0].n >= 0 && ms[8].n >= 0
    then Some(Product(ms[0].n, ms[1].s, ms[2].s, ms[3].s, ms[4].s, ms[5].cents, ms[6].n, ms[7].n, ms[8].n))
    else None
  }

  function Encode(p: Product): string {
    EncodeMembers(LABELS, Members(p))
  }

  function Decode(s: string): Option<Product> {
    match ParseMembers(LABELS, KINDS, s)
    case None => None
    case Some(ms) => FromMembers(ms)
  }

  /** Decoding the encoded text of any record gives that record back. */
  lemma PayloadRoundTrip(p: Product)
    ensures Decode(Encode(p)) == Some(p)
  {
    LabelsSeparate();
    MembersHaveKinds(p);
    MembersRoundTrip(LABELS, KINDS, Members(p));
    FromMembersOf(p);
  }

  lemma LabelsSeparate()
    ensures Separators(LABELS)
  {
  }

  lemma MembersHaveKinds(p: Product)
    ensures forall i :: 0 <= i < |LABELS| ==> Members(p)[i].Kind() == KINDS[i]
  {
  }

  lemma FromMembersOf(p: Product)
    ensures FromMembers(Members(p)) == Some(p)
  {
  }

  /** No record is mistaken for the null marker. */
  lemma PayloadIsNotNull(p: Product)
    ensures Encode(p) != NULL_MARKER
  {
    assert Encode(p)[0] == LABELS[0][0] == '{';
  }

  // ----- How the text reads -----

  lemma {:induction false} PlainBody(s: string)
    requires forall i :: 0 <= i < |s| ==> ' ' <= s[i] <= '~' && s[i] !in "\"\\<>&"
    ensures Escape(s) == s
  {
    if s == "" {
    } else {
      PlainBody(s[1..]);
      assert EscapeChar(s[0]) == [s[0]];
      assert s == [s[0]] + s[1..];
    }
  }

  /** A plain text stands between quotes as it is. */
  lemma PlainTextIsQuoted(s: string)
    requires forall i :: 0 <= i < |s| ==> ' ' <= s[i] <= '~' && s[i] !in "\"\\<>&"
    ensures EncodeText(s) == "\"" + s + "\""
  {
    PlainBody(s);
    assert "\"" + s + "\"" == "\"" + (s + "\"");
  }

  /** The other characters of ASCII: quotes and backslashes, the controls with a letter of their own, and the rest, with
      those that HTML would read, by their four digits. */
  lemma EscapesAreSpelled()
    ensures EscapeChar('"') == "\\\"" && EscapeChar('\\') == "\\\\"
    ensures EscapeChar('\n') == "\\n" && EscapeChar('\r') == "\\r" && EscapeChar('\t') == "\\t"
    ensures EscapeChar('\U{08}') == "\\b" && EscapeChar('\U{0C}') == "\\f"
    ensures EscapeChar('<') == "\\u003c" && EscapeChar('>') == "\\u003e" && EscapeChar('&') == "\\u0026"
    ensures EscapeChar('\U{1F}') == "\\u001f" && EscapeChar('\U{2028}') == "\\u2028"
  {
  }

  lemma FractionIsSpelled(tenths: nat, hundredths: nat)
    requires tenths < 10 && hundredths < 10
    ensures Fraction(10 * tenths + hundredths) == (
      if hundredths > 0 then "." + Decimal(tenths) + Decimal(hundredths)
      else if tenths > 0 then "." + Decimal(tenths) else "")
  {
    var f := 10 * tenths + hundredths;
    assert f / 10 == tenths && f % 10 == hundredths;
  }

  /** Whole amounts have no point, and others no trailing zero. */
  lemma CentsAreSpelled(c: int, whole: nat, tenths: nat, hundredths: nat)
    requires tenths < 10 && hundredths < 10 && c == 100 * whole + 10 * tenths + hundredths
    ensures EncodeCents(c) == Decimal(whole) + (
      if hundredths > 0 then "." + Decimal(tenths) + Decimal(hundredths)
      else if tenths > 0 then "." + Decimal(tenths) else "")
    ensures c > 0 ==> EncodeCents(-c) == "-" + EncodeCents(c)
  {
    assert c / 100 == whole && c % 100 == 10 * tenths + hundredths;
    FractionIsSpelled(tenths, hundredths);
    SignIsSpelled(c);
    var amount := EncodeAmount(c);
    assert "" + amount == amount;
  }

  lemma SignIsSpelled(n: int)
    requires n >= 0
    ensures Sign(n) == "" && Magnitude(n) == n && (n > 0 ==> Sign(-n) == "-" && Magnitude(-n) == n)
  {
  }

  /** Integers are numerals, with a minus sign where they need one. */
  lemma IntsAreSpelled(n: int)
    requires n >= 0
    ensures EncodeInt(n) == Decimal(n) && (n > 0 ==> EncodeInt(-n) == "-" + Decimal(n))
  {
    SignIsSpelled(n);
    assert "" + Decimal(n) == Decimal(n);
  }

  lemma NextMember(p: Product, k: nat, name: string, member: Member)
    requires k < |LABELS| && LABELS[k] == name && Members(p)[k] == member
    ensures MembersFrom(p, k) == name + (EncodeMember(member) + MembersFrom(p, k + 1))
  {
    assert LABELS[k..][1..] == LABELS[k + 1..] && Members(p)[k..][1..] == Members(p)[k + 1..];
  }

  function MembersFrom(p: Product, k: nat): string
    requires k <= |LABELS|
  {
    EncodeMembers(LABELS[k..], Members(p)[k..])
  }

  lemma NumbersAreSpelled(p: Product)
    ensures MembersFrom(p, 5) == ",\"price\":" + (EncodeCents(p.price)
      + (",\"stock\":" + (EncodeInt(p.stock)
      + (",\"status\":" + (EncodeInt(p.status)
      + (",\"category_id\":" + (EncodeInt(p.categoryId) + "}")))))))
  {
    assert MembersFrom(p, 9) == "}";
    NextMember(p, 8, ",\"category_id\":", IntMember(p.categoryId));
    NextMember(p, 7, ",\"status\":", IntMember(p.status));
    NextMember(p, 6, ",\"stock\":", IntMember(p.stock));
    NextMember(p, 5, ",\"price\":", CentsMember(p.price));
  }

  lemma TextsAreSpelled(p: Product)
    ensures MembersFrom(p, 1) == ",\"created_at\":" + (EncodeText(p.createdAt)
      + (",\"updated_at\":" + (EncodeText(p.updatedAt)
      + (",\"name\":" + (EncodeText(p.name)
      + (",\"description\":" + (EncodeText(p.description) + MembersFrom(p, 5))))))))
  {
    NextMember(p, 4, ",\"description\":", TextMember(p.description));
    NextMember(p, 3, ",\"name\":", TextMember(p.name));
    NextMember(p, 2, ",\"updated_at\":", TextMember(p.updatedAt));
    NextMember(p, 1, ",\"created_at\":", TextMember(p.createdAt));
  }

  /** The object as Go writes it: the fields in their order, each under its own name. */
  lemma ProductIsSpelled(p: Product)
    ensures Encode(p) == "{\"id\":" + (EncodeInt(p.id)
      + (",\"created_at\":" + (EncodeText(p.createdAt)
      + (",\"updated_at\":" + (EncodeText(p.updatedAt)
      + (",\"name\":" + (EncodeText(p.name)
      + (",\"description\":" + (EncodeText(p.description)
      + (",\"price\":" + (EncodeCents(p.price)
      + (",\"stock\":" + (EncodeInt(p.stock)
      + (",\"status\":" + (EncodeInt(p.status)
      + (",\"category_id\":" + (EncodeInt(p.categoryId) + "}")))))))))))))))))
  {
    assert LABELS[0..] == LABELS && Members(p)[0..] == Members(p);
    NextMember(p, 0, "{\"id\":", IntMember(p.id));
    TextsAreSpelled(p);
    NumbersAreSpelled(p);
  }

  // ----- The text stored for an id, and what GetByID makes of it -----

  /** The loader's result for what the repository holds under an id. */
  function TextOf(record: Option<Product>): string {
    match record
    case Some(p) => Encode(p)
    case None => NULL_MARKER
  }

  /** What GetByID answers: a product, ErrProductNotFound, or ErrInternal. */
  datatype Answer = Found(product: Product) | NotFound | Internal

  /** How GetByID reads a cached text. */
  function AnswerOfText(text: string): Answer {
    if text == NULL_MARKER then NotFound else
    match Decode(text)
    case Some(p) => Found(p)
    case None => Internal
  }

  /** The answer of a service built without a cache, for the record it reads. */
  function PlainAnswer(record: Option<Product>): Answer {
    match record
    case Some(p) => Found(p)
    case None => NotFound
  }

  /** Going through the stored text changes no answer. */
  lemma TextKeepsAnswer(record: Option<Product>)
    ensures AnswerOfText(TextOf(record)) == PlainAnswer(record)
  {
    match record
    case None =>
    case Some(p) =>
      PayloadRoundTrip(p);
      PayloadIsNotNull(p);
  }

  /** The absence of a record is stored as JSON's null. */
  lemma AbsenceIsNull()
    ensures TextOf(None) == "null"
  {
  }

  lemma TextInjective(a: Option<Product>, b: Option<Product>)
    requires TextOf(a) == TextOf(b)
    ensures a == b
  {
    TextKeepsAnswer(a);
    TextKeepsAnswer(b);
  }

  /** The cache key of a product id. */
  function CacheKey(id: nat): string {
    "product:" + Decimal(id)
  }

  /** The key is the prefix and a numeral of the id. */
  lemma CacheKeySpells(id: nat)
    ensures "product:" < CacheKey(id) && AllDigits(CacheKey(id)[8..]) && DigitsValue(CacheKey(id)[8..]) == id
  {
    DecimalRoundTrip(id);
    assert CacheKey(id)[8..] == Decimal(id);
  }

  lemma CacheKeyInjective(a: nat, b: nat)
    requires CacheKey(a) == CacheKey(b)
    ensures a == b
  {
    assert Decimal(a) == CacheKey(a)[8..];
    assert Decimal(b) == CacheKey(b)[8..];
    DecimalInjective(a, b);
  }
}
