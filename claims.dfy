/**
 * The claims set carried by a token and its serialisation. The compact
 * serialisation of a JSON Web Token (base64url-encoded JSON objects) is
 * modelled by a self-delimiting text encoding: every field is tagged as
 * absent (`-`) or present (`+`); every character of a string is preceded
 * by a quote and the string ends with `;`; a list tags each item with `+`
 * and, like the sequence of fields, ends with `.`.
 */
module JwtClaims {
  import opened Wrappers
  import opened Text

  /**
   * The claims the system reads and writes: the registered claims `sub`,
   * `iat` and `exp` of RFC 7519 (sections 4.1.2, 4.1.6 and 4.1.4) and the
   * private claim `roles`, a list of role names. `iat` and `exp` are
   * NumericDate values, that is whole seconds (RFC 7519 section 2).
   */
  datatype Claims = Claims(
    subject: Option<string>,
    roles: Option<seq<string>>,
    issuedAt: Option<nat>,
    expiration: Option<nat>)

  /** A non-empty sequence is its head followed by its tail. */
  lemma HeadTail<T>(xs: seq<T>)
    requires xs != []
    ensures [xs[0]] + xs[1..] == xs
  {
  }

  /** Appending to a concatenation, and its length. */
  lemma AppendAssoc(a: string, b: string, c: string)
    ensures (a + b) + c == a + (b + c)
    ensures |a + b| == |a| + |b|
  {
  }

  const Quote: char := '\''
  const EndOfString: char := ';'

  /** A string as each of its characters behind a quote, then `;`. */
  function EncodeString(x: string): string
  {
    if x == [] then [EndOfString] else [Quote, x[0]] + EncodeString(x[1..])
  }

  /** Reads a string off the front of `s`; gives the string and the characters consumed. */
  function DecodeString(s: string): (r: Option<(string, nat)>)
    ensures r.Some? ==> 0 < r.value.1 <= |s|
  {
    if s == [] then None
    else if s[0] == EndOfString then Some(([], 1))
    else if s[0] == Quote && |s| >= 2 then
      match DecodeString(s[2..])
      case None => None
      case Some((y, k)) => Some(([s[1]] + y, 2 + k))
    else None
  }

  /** One step of `DecodeString`: a quoted character, then the rest. */
  lemma DecodeStringQuoted(c: char, t: string)
    ensures DecodeString([Quote, c] + t)
            == match DecodeString(t)
               case None => None
               case Some((y, k)) => Some(([c] + y, 2 + k))
  {
    assert ([Quote, c] + t)[2..] == t;
  }

  lemma {:induction false} DecodeEncodeString(x: string, rest: string)
    ensures DecodeString(EncodeString(x) + rest) == Some((x, |EncodeString(x)|))
  {
    if x == [] {
      assert (EncodeString(x) + rest)[0] == EndOfString;
    } else {
      var t := EncodeString(x[1..]) + rest;
      DecodeEncodeString(x[1..], rest);
      DecodeStringQuoted(x[0], t);
      assert EncodeString(x) + rest == [Quote, x[0]] + t
          && |EncodeString(x)| == 2 + |EncodeString(x[1..])| by {
        assert EncodeString(x) == [Quote, x[0]] + EncodeString(x[1..]);
      }
      assert [x[0]] + x[1..] == x;
    }
  }

  const Item: char := '+'
  const EndOfList: char := '.'

  /** One list item: `+` and the encoded string. */
  function EncodeItem(x: string): string
  {
    [Item] + EncodeString(x)
  }

  /** A list of strings as its items, then `.`. */
  function EncodeItems(xs: seq<string>): string
  {
    if xs == [] then [EndOfList] else EncodeItem(xs[0]) + EncodeItems(xs[1..])
  }

  /** Reads one item off the front of `s`. */
  function DecodeItem(s: string): (r: Option<(string, nat)>)
    ensures r.Some? ==> 0 < r.value.1 <= |s|
  {
    if s == [] || s[0] != Item then None
    else
      match DecodeString(s[1..])
      case None => None
      case Some((x, k)) => Some((x, 1 + k))
  }

  lemma DecodeEncodeItem(x: string, rest: string)
    ensures DecodeItem(EncodeItem(x) + rest) == Some((x, |EncodeItem(x)|))
  {
    var s := EncodeItem(x) + rest;
    assert s[1..] == EncodeString(x) + rest;
    DecodeEncodeString(x, rest);
  }

  /** Reads a list of strings off the front of `s`, up to the closing `.`. */
  function DecodeItems(s: string): (r: Option<(seq<string>, nat)>)
    ensures r.Some? ==> 0 < r.value.1 <= |s|
    decreases |s|
  {
    if s == [] then None
    else if s[0] == EndOfList then Some(([], 1))
    else
      match DecodeItem(s)
      case None => None
      case Some((x, k)) =>
        match DecodeItems(s[k..])
        case None => None
        case Some((xs, m)) => Some(([x] + xs, k + m))
  }

  /** One step of `DecodeItems`: an encoded item, then the rest. */
  lemma DecodeItemsCons(x: string, t: string)
    ensures DecodeItems(EncodeItem(x) + t)
            == match DecodeItems(t)
               case None => None
               case Some((xs, m)) => Some(([x] + xs, |EncodeItem(x)| + m))
  {
    DecodeEncodeItem(x, t);
    assert (EncodeItem(x) + t)[0] != EndOfList;
    assert (EncodeItem(x) + t)[|EncodeItem(x)|..] == t;
  }

  lemma {:induction false} DecodeEncodeItems(xs: seq<string>, rest: string)
    ensures DecodeItems(EncodeItems(xs) + rest) == Some((xs, |EncodeItems(xs)|))
  {
    if xs == [] {
      assert (EncodeItems(xs) + rest)[0] == EndOfList;
    } else {
      var t := EncodeItems(xs[1..]) + rest;
      DecodeEncodeItems(xs[1..], rest);
      DecodeItemsCons(xs[0], t);
      AppendAssoc(EncodeItem(xs[0]), EncodeItems(xs[1..]), rest);
      HeadTail(xs);
    }
  }

  /** The serialised list of role names. */
  function EncodeList(xs: seq<string>): string
  {
    EncodeItems(xs)
  }

  /** Reads a list that must fill all of `s`. */
  function DecodeList(s: string): Option<seq<string>>
  {
    match DecodeItems(s)
    case None => None
    case Some((xs, m)) => if m == |s| then Some(xs) else None
  }

  lemma DecodeEncodeList(xs: seq<string>)
    ensures DecodeList(EncodeList(xs)) == Some(xs)
  {
    DecodeEncodeItems(xs, []);
    assert EncodeItems(xs) + [] == EncodeItems(xs);
  }

  /** An optional claim value: `-` when absent, `+` and the value when present. */
  function EncodeField(o: Option<string>): string
  {
    match o
    case None => "-"
    case Some(x) => "+" + EncodeString(x)
  }

  function DecodeField(s: string): (r: Option<(Option<string>, nat)>)
    ensures r.Some? ==> 0 < r.value.1 <= |s|
  {
    if s == [] then None
    else if s[0] == '-' then Some((None, 1))
    else if s[0] == '+' then
      match DecodeString(s[1..])
      case None => None
      case Some((x, k)) => Some((Some(x), 1 + k))
    else None
  }

  lemma DecodeEncodeField(o: Option<string>, rest: string)
    ensures DecodeField(EncodeField(o) + rest) == Some((o, |EncodeField(o)|))
  {
    if o.Some? {
      var s := EncodeField(o) + rest;
      assert s[1..] == EncodeString(o.value) + rest;
      DecodeEncodeString(o.value, rest);
    }
  }

  function RolesText(roles: Option<seq<string>>): Option<string>
  {
    match roles
    case None => None
    case Some(xs) => Some(EncodeList(xs))
  }

  function TimeText(t: Option<nat>): Option<string>
  {
    match t
    case None => None
    case Some(n) => Some(Decimal(n))
  }

  /** The `roles` claim read back; `None` when the text is not a list. */
  function ParseRoles(text: Option<string>): Option<Option<seq<string>>>
  {
    match text
    case None => Some(None)
    case Some(x) =>
      match DecodeList(x)
      case None => None
      case Some(xs) => Some(Some(xs))
  }

  /** A NumericDate claim read back; `None` when the text is not a number. */
  function ParseTime(text: Option<string>): Option<Option<nat>>
  {
    match text
    case None => Some(None)
    case Some(x) => if x != [] && AllDigits(x) then Some(Some(DecimalValue(x))) else None
  }

  lemma ParseRolesText(roles: Option<seq<string>>)
    ensures ParseRoles(RolesText(roles)) == Some(roles)
  {
    if roles.Some? {
      DecodeEncodeList(roles.value);
    }
  }

  lemma ParseTimeText(t: Option<nat>)
    ensures ParseTime(TimeText(t)) == Some(t)
  {
    if t.Some? {
      DecimalRoundTrip(t.value);
    }
  }

  /** The four claim fields in serialisation order: `sub`, `roles`, `iat`, `exp`. */
  function Fields(c: Claims): (fs: seq<Option<string>>)
    ensures |fs| == 4
  {
    [c.subject, RolesText(c.roles), TimeText(c.issuedAt), TimeText(c.expiration)]
  }

  /** The claims set four decoded fields denote, if each is well formed. */
  function FromFields(fs: seq<Option<string>>): Option<Claims>
  {
    if |fs| != 4 then None
    else
    var roles, iat, exp := ParseRoles(fs[1]), ParseTime(fs[2]), ParseTime(fs[3]);
    if roles.Some? && iat.Some? && exp.Some? then Some(Claims(fs[0], roles.value, iat.value, exp.value))
    else None
  }

  lemma FromFieldsOfFields(c: Claims)
    ensures FromFields(Fields(c)) == Some(c)
  {
    ParseRolesText(c.roles);
    ParseTimeText(c.issuedAt);
    ParseTimeText(c.expiration);
  }

  /** A sequence of fields, then `.`. */
  function EncodeFields(fs: seq<Option<string>>): string
  {
    if fs == [] then [EndOfList] else EncodeField(fs[0]) + EncodeFields(fs[1..])
  }

  /** Reads fields off the front of `s` up to the closing `.`. */
  function DecodeFields(s: string): (r: Option<(seq<Option<string>>, nat)>)
    ensures r.Some? ==> 0 < r.value.1 <= |s|
    decreases |s|
  {
    if s == [] then None
    else if s[0] == EndOfList then Some(([], 1))
    else
      match DecodeField(s)
      case None => None
      case Some((x, k)) =>
        match DecodeFields(s[k..])
        case None => None
        case Some((xs, m)) => Some(([x] + xs, k + m))
  }

  /** One step of `DecodeFields`: an encoded field, then the rest. */
  lemma DecodeFieldsCons(x: Option<string>, t: string)
    ensures DecodeFields(EncodeField(x) + t)
            == match DecodeFields(t)
               case None => None
               case Some((xs, m)) => Some(([x] + xs, |EncodeField(x)| + m))
  {
    var e := EncodeField(x);
    var s := e + t;
    DecodeEncodeField(x, t);
    assert s[0] == e[0] != EndOfList;
    assert s[|e|..] == t;
  }

  lemma {:induction false} DecodeEncodeFields(fs: seq<Option<string>>, rest: string)
    ensures DecodeFields(EncodeFields(fs) + rest) == Some((fs, |EncodeFields(fs)|))
  {
    if fs == [] {
      assert (EncodeFields(fs) + rest)[0] == EndOfList;
    } else {
      var t := EncodeFields(fs[1..]) + rest;
      DecodeEncodeFields(fs[1..], rest);
      DecodeFieldsCons(fs[0], t);
      AppendAssoc(EncodeField(fs[0]), EncodeFields(fs[1..]), rest);
      HeadTail(fs);
    }
  }

  /** The serialised claims set. */
  function Encode(c: Claims): string
  {
    EncodeFields(Fields(c))
  }

  /** Reads a claims set off the front of `s`; gives the claims and the characters consumed. */
  function Decode(s: string): (r: Option<(Claims, nat)>)
    ensures r.Some? ==> r.value.1 <= |s|
  {
    match DecodeFields(s)
    case None => None
    case Some((fs, k)) =>
      match FromFields(fs)
      case None => None
      case Some(c) => Some((c, k))
  }

  /** Decoding a serialised claims set, whatever follows it, gives back the claims. */
  lemma DecodeEncode(c: Claims, rest: string)
    ensures Decode(Encode(c) + rest) == Some((c, |Encode(c)|))
  {
    DecodeEncodeFields(Fields(c), rest);
    FromFieldsOfFields(c);
  }
}
