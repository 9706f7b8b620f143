/**
 * The cloud-config extractor: the embedded cloud provider configuration, a
 * flat JSON object, re-rendered as the brace-delimited, tab-indented list of
 * `key: value` lines the Windows kubelet is pointed at.
 */
module CloudConf {
  import opened Errors
  import opened Text

  /** A member's value: a JSON string (held without its quotes) or a bare literal such as `true`, `null` or `6`. */
  datatype Value = Str(text: string) | Bare(token: string)

  datatype Entry = Entry(key: string, value: Value)

  predicate IsSpace(c: char)
  {
    c == ' ' || c == '\t' || c == '\n' || c == '\r'
  }

  /** The characters that end a bare literal. */
  predicate EndsBare(c: char)
  {
    IsSpace(c) || c == ',' || c == '}' || c == '"'
  }

  /** `s` without its leading white space. */
  function SkipSpace(s: string): (r: string)
    ensures |r| <= |s|
    ensures r == [] || !IsSpace(r[0])
  {
    if s != [] && IsSpace(s[0]) then SkipSpace(s[1..]) else s
  }

  /** The position of the first `"` in `s`. */
  function QuoteIndex(s: string): (r: Option<nat>)
    ensures r.Some? ==> r.value < |s| && s[r.value] == '"'
    ensures r.None? ==> '"' !in s
  {
    if s == [] then None
    else if s[0] == '"' then Some(0)
    else
      match QuoteIndex(s[1..])
      case None => None
      case Some(i) => Some(i + 1)
  }

  /** A JSON string without escapes: the text between its quotes, and what follows it. */
  function ParseString(s: string): (r: Result<(string, string)>)
    ensures r.Ok? ==> |r.value.1| < |s|
  {
    if s == [] || s[0] != '"' then Err(CloudConfigSyntax)
    else
      match QuoteIndex(s[1..])
      case None => Err(CloudConfigSyntax)
      case Some(i) =>
        var text := s[1..i + 1];
        if '\\' in text then Err(CloudConfigSyntax) else Ok((text, s[i + 2..]))
  }

  /** The length of the bare literal `s` starts with. */
  function BareLength(s: string): (n: nat)
    ensures n <= |s|
    ensures forall i :: 0 <= i < n ==> !EndsBare(s[i])
    ensures n < |s| ==> EndsBare(s[n])
  {
    if s == [] || EndsBare(s[0]) then 0 else 1 + BareLength(s[1..])
  }

  /** A string or a bare literal; nested objects and arrays are refused. */
  function ParseValue(s: string): (r: Result<(Value, string)>)
    ensures r.Ok? ==> |r.value.1| < |s|
  {
    if s == [] || s[0] == '{' || s[0] == '[' then Err(CloudConfigSyntax)
    else if s[0] == '"' then
      match ParseString(s)
      case Err(e) => Err(e)
      case Ok((t, rest)) => Ok((Str(t), rest))
    else
      var n := BareLength(s);
      if n == 0 then Err(CloudConfigSyntax) else Ok((Bare(s[..n]), s[n..]))
  }

  /** `"key": value`, with white space allowed around the colon. */
  function ParseMember(s: string): (r: Result<(Entry, string)>)
    ensures r.Ok? ==> |r.value.1| < |s|
  {
    match ParseString(s)
    case Err(e) => Err(e)
    case Ok((key, rest)) =>
      var t := SkipSpace(rest);
      if t == [] || t[0] != ':' then Err(CloudConfigSyntax)
      else
        match ParseValue(SkipSpace(t[1..]))
        case Err(e) => Err(e)
        case Ok((v, after)) => Ok((Entry(key, v), after))
  }

  /** The members that follow `{` or `,`, up to the closing brace, which only white space may follow. */
  function ParseMembers(s: string): (r: Result<seq<Entry>>)
    decreases |s|
  {
    match ParseMember(SkipSpace(s))
    case Err(e) => Err(e)
    case Ok((e, rest)) =>
      var t := SkipSpace(rest);
      if t == [] then Err(CloudConfigSyntax)
      else if t[0] == ',' then
        match ParseMembers(t[1..])
        case Err(err) => Err(err)
        case Ok(es) => Ok([e] + es)
      else if t[0] == '}' && SkipSpace(t[1..]) == [] then Ok([e])
      else Err(CloudConfigSyntax)
  }

  /** A flat JSON object, its members in document order. */
  function ParseObject(s: string): (r: Result<seq<Entry>>)
  {
    var t := SkipSpace(s);
    if t == [] || t[0] != '{' then Err(CloudConfigSyntax)
    else
      var u := SkipSpace(t[1..]);
      if u != [] && u[0] == '}' then
        if SkipSpace(u[1..]) == [] then Ok([]) else Err(CloudConfigSyntax)
      else ParseMembers(t[1..])
  }

  function ValueJson(v: Value): string
  {
    match v
    case Str(t) => "\"" + t + "\""
    case Bare(t) => t
  }

  function MemberJson(e: Entry): string
  {
    "\"" + e.key + "\": " + ValueJson(e.value)
  }

  /** The members laid out as json.MarshalIndent does with a tab indent, closing brace included. */
  function MembersJson(es: seq<Entry>): string
    requires es != []
    decreases |es|, 1
  {
    "\n\t" + (MemberJson(es[0]) + MembersTail(es))
  }

  /** What follows the first member: the closing brace, or a comma and the other members. */
  function MembersTail(es: seq<Entry>): string
    requires es != []
    decreases |es|, 0
  {
    if |es| == 1 then "\n}" else "," + MembersJson(es[1..])
  }

  /** The configuration as the cluster embeds it. */
  function Serialize(es: seq<Entry>): string
  {
    if es == [] then "{}" else "{" + MembersJson(es)
  }

  /** Text a JSON string can hold without escapes. */
  predicate IsPlainText(t: string)
  {
    '"' !in t && '\\' !in t
  }

  predicate IsBareToken(t: string)
  {
    t != [] && t[0] != '{' && t[0] != '[' && forall i :: 0 <= i < |t| ==> !EndsBare(t[i])
  }

  /** The members this extractor reads back: keys and strings without escapes, bare literals without delimiters. */
  predicate WellFormed(e: Entry)
  {
    IsPlainText(e.key) &&
    match e.value
    case Str(t) => IsPlainText(t)
    case Bare(t) => IsBareToken(t)
  }

  function ValueText(v: Value): string
  {
    match v
    case Str(t) => t
    case Bare(t) => t
  }

  /** One line of the rendered file, without its indent. */
  function Item(e: Entry): string
  {
    e.key + ": " + ValueText(e.value)
  }

  function Items(es: seq<Entry>): seq<string>
  {
    seq(|es|, k requires 0 <= k < |es| => Item(es[k]))
  }

  const ItemSep: string := ",\n\t"

  /** The rendered cloud.conf: `{`, the tab-indented items separated by commas, and `}`. */
  function Render(es: seq<Entry>): string
  {
    "{\n\t" + Join(Items(es), ItemSep) + "\n}"
  }

  /** The transformation the cloud.conf file entry goes through. */
  function ExtractCloudConf(data: string): (r: Result<string>)
  {
    match ParseObject(data)
    case Err(e) => Err(e)
    case Ok(es) => Ok(Render(es))
  }

  // Reading back what Serialize writes, piece by piece.

  lemma {:induction false} QuoteIndexAfter(t: string, x: string)
    requires '"' !in t
    ensures QuoteIndex(t + "\"" + x) == Some(|t|)
  {
    if t != [] {
      assert (t + "\"" + x)[1..] == t[1..] + "\"" + x;
      QuoteIndexAfter(t[1..], x);
    }
  }

  lemma ParseStringOf(t: string, x: string)
    requires IsPlainText(t)
    ensures ParseString("\"" + t + "\"" + x) == Ok((t, x))
  {
    var s := "\"" + t + "\"" + x;
    assert s[1..] == t + "\"" + x;
    QuoteIndexAfter(t, x);
    assert s[1..|t| + 1] == t;
    assert s[|t| + 2..] == x;
  }

  lemma {:induction false} BareLengthOf(t: string, x: string)
    requires forall i :: 0 <= i < |t| ==> !EndsBare(t[i])
    requires x == [] || EndsBare(x[0])
    ensures BareLength(t + x) == |t|
  {
    if t != [] {
      assert (t + x)[1..] == t[1..] + x;
      BareLengthOf(t[1..], x);
    }
  }

  lemma ParseValueOf(v: Value, x: string)
    requires match v case Str(t) => IsPlainText(t) case Bare(t) => IsBareToken(t)
    requires x == [] || EndsBare(x[0])
    ensures ParseValue(ValueJson(v) + x) == Ok((v, x))
  {
    match v
    case Str(t) =>
      ParseStringOf(t, x);
    case Bare(t) =>
      BareLengthOf(t, x);
      assert (t + x)[..|t|] == t;
      assert (t + x)[|t|..] == x;
  }

  lemma SkipSpaceNone(s: string)
    requires s == [] || !IsSpace(s[0])
    ensures SkipSpace(s) == s
  {
  }

  lemma ParseMemberOf(e: Entry, x: string)
    requires WellFormed(e)
    requires x == [] || EndsBare(x[0])
    ensures ParseMember(MemberJson(e) + x) == Ok((e, x))
  {
    ParseValueOf(e.value, x);
    ValueJsonStart(e.value);
    MemberJsonParts(e, x);
    ParseMemberOfParts(e.key, ValueJson(e.value), e.value, x);
  }

  lemma MemberJsonParts(e: Entry, x: string)
    ensures MemberJson(e) + x == "\"" + e.key + "\"" + (": " + (ValueJson(e.value) + x))
  {
  }

  /** A value's JSON text starts with a character that is not white space. */
  lemma ValueJsonStart(v: Value)
    requires match v case Str(t) => IsPlainText(t) case Bare(t) => IsBareToken(t)
    ensures ValueJson(v) != [] && !IsSpace(ValueJson(v)[0])
  {
  }

  /** A member read from its key, its colon and the text its value starts. */
  lemma ParseMemberOfParts(key: string, vj: string, v: Value, x: string)
    requires IsPlainText(key)
    requires vj != [] && !IsSpace(vj[0])
    requires ParseValue(vj + x) == Ok((v, x))
    ensures ParseMember("\"" + key + "\"" + (": " + (vj + x))) == Ok((Entry(key, v), x))
  {
    var rest := ": " + (vj + x);
    ParseStringOf(key, rest);
    SkipSpaceNone(rest);
    assert rest[1..] == " " + (vj + x);
    assert (vj + x)[0] == vj[0];
    SkipSpaceNone(vj + x);
    assert SkipSpace(" " + (vj + x)) == vj + x;
    ParseMemberStep("\"" + key + "\"" + rest, key, rest, v, x);
  }

  /** ParseMember from its three parts: the key, the colon, the value. */
  lemma ParseMemberStep(s: string, key: string, rest: string, v: Value, after: string)
    requires ParseString(s) == Ok((key, rest))
    requires SkipSpace(rest) != [] && SkipSpace(rest)[0] == ':'
    requires ParseValue(SkipSpace(SkipSpace(rest)[1..])) == Ok((v, after))
    ensures ParseMember(s) == Ok((Entry(key, v), after))
  {
  }

  lemma {:induction false} ParseMembersOf(es: seq<Entry>)
    requires es != [] && forall k :: 0 <= k < |es| ==> WellFormed(es[k])
    ensures ParseMembers(MembersJson(es)) == Ok(es)
    decreases |es|
  {
    if |es| == 1 {
      ParseOnlyMember(es);
    } else {
      assert forall k :: 0 <= k < |es[1..]| ==> es[1..][k] == es[k + 1];
      ParseMembersOf(es[1..]);
      ParseMoreMembers(es);
    }
  }

  /** A list of one member is read as that member. */
  lemma ParseOnlyMember(es: seq<Entry>)
    requires |es| == 1 && WellFormed(es[0])
    ensures ParseMembers(MembersJson(es)) == Ok(es)
  {
    ParseFirstMember(es);
    ParseMembersLast(MembersJson(es), es[0], MembersTail(es));
    assert es == [es[0]];
  }

  /** A longer list is read as its first member, then the list after the comma. */
  lemma ParseMoreMembers(es: seq<Entry>)
    requires |es| > 1 && WellFormed(es[0])
    requires ParseMembers(MembersJson(es[1..])) == Ok(es[1..])
    ensures ParseMembers(MembersJson(es)) == Ok(es)
  {
    ParseFirstMember(es);
    CommaTail(es[1..]);
    ParseMembersNext(MembersJson(es), es[0], MembersTail(es), es[1..]);
    assert es == [es[0]] + es[1..];
  }

  /** The first member of a member list is read after its indent, up to the rest of the list. */
  lemma ParseFirstMember(es: seq<Entry>)
    requires es != [] && WellFormed(es[0])
    ensures ParseMember(SkipSpace(MembersJson(es))) == Ok((es[0], MembersTail(es)))
  {
    var tail := MembersTail(es);
    ValueJsonStart(es[0].value);
    MemberJsonStart(es[0], tail);
    SkipIndent(MemberJson(es[0]) + tail);
    assert SkipSpace(MembersJson(es)) == MemberJson(es[0]) + tail;
    ParseMemberOf(es[0], tail);
  }

  lemma MemberJsonStart(e: Entry, x: string)
    ensures MemberJson(e) + x != [] && (MemberJson(e) + x)[0] == '"'
  {
  }

  lemma CommaTail(es: seq<Entry>)
    requires es != []
    ensures SkipSpace("," + MembersJson(es)) == "," + MembersJson(es)
    ensures ("," + MembersJson(es))[1..] == MembersJson(es)
  {
  }

  /** The indent before a member is skipped. */
  lemma SkipIndent(y: string)
    requires y != [] && y[0] == '"'
    ensures SkipSpace("\n\t" + y) == y
  {
    assert ("\n\t" + y)[1..] == "\t" + y;
    assert ("\t" + y)[1..] == y;
    assert SkipSpace(y) == y;
    assert SkipSpace("\t" + y) == y;
  }

  /** A member followed by a comma and the members after it. */
  lemma ParseMembersNext(s: string, e: Entry, rest: string, es: seq<Entry>)
    requires ParseMember(SkipSpace(s)) == Ok((e, rest))
    requires SkipSpace(rest) != [] && SkipSpace(rest)[0] == ','
    requires ParseMembers(SkipSpace(rest)[1..]) == Ok(es)
    ensures ParseMembers(s) == Ok([e] + es)
  {
  }

  /** The last member, followed by the closing brace. */
  lemma ParseMembersLast(s: string, e: Entry, rest: string)
    requires ParseMember(SkipSpace(s)) == Ok((e, rest))
    requires rest == "\n}"
    ensures ParseMembers(s) == Ok([e])
  {
    assert rest[1..] == "}";
    assert SkipSpace("}") == "}";
    assert SkipSpace(rest) == "}";
    assert SkipSpace(rest)[1..] == [];
  }

  /** Parsing inverts serialising: the members come back, in order. */
  lemma ParseSerialize(es: seq<Entry>)
    requires forall k :: 0 <= k < |es| ==> WellFormed(es[k])
    ensures ParseObject(Serialize(es)) == Ok(es)
  {
    if es != [] {
      var s := Serialize(es);
      SkipSpaceNone(s);
      assert s[1..] == MembersJson(es);
      ParseMembersOf(es);
    }
  }

  /** The extractor renders exactly the members of the embedded configuration. */
  lemma ExtractSerialized(es: seq<Entry>)
    requires forall k :: 0 <= k < |es| ==> WellFormed(es[k])
    ensures ExtractCloudConf(Serialize(es)) == Ok(Render(es))
  {
    ParseSerialize(es);
  }

  /** Malformed text is refused rather than rendered. */
  lemma ExtractRefusesNonObject(data: string)
    requires SkipSpace(data) == [] || SkipSpace(data)[0] != '{'
    ensures ExtractCloudConf(data) == Err(CloudConfigSyntax)
  {
  }

  /**
   * The rendered file opens with `{` and closes with `}`; without its `{\n\t`
   * head and `\n}` tail it splits at `,\n\t` into exactly the items, in order.
   */
  lemma RenderSplitsIntoItems(es: seq<Entry>)
    requires es != []
    requires forall k :: 0 <= k < |es| ==> ',' !in es[k].key && ',' !in ValueText(es[k].value)
    ensures var r := Render(es);
      r[0] == '{' && r[|r| - 1] == '}' &&
      Split(r[3..|r| - 2], ItemSep) == Items(es)
  {
    var body := Join(Items(es), ItemSep);
    var r := Render(es);
    assert r[3..|r| - 2] == body;
    forall k | 0 <= k < |Items(es)|
      ensures ItemSep[0] !in Items(es)[k]
    {
      var e := es[k];
      assert Items(es)[k] == e.key + ": " + ValueText(e.value);
    }
    SplitJoin(Items(es), ItemSep);
  }

  /** Each item splits at `:` into exactly its key and its value, when neither holds a colon. */
  lemma ItemSplitsAtColon(e: Entry)
    requires ':' !in e.key && ':' !in ValueText(e.value)
    ensures Split(Item(e), ":") == [e.key, " " + ValueText(e.value)]
  {
    var pieces := [e.key, " " + ValueText(e.value)];
    assert Join(pieces, ":") == Item(e);
    SplitJoin(pieces, ":");
  }
}
