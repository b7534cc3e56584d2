/** A parser of the JSON grammar without insignificant white space, and the proof that it reads back
    every document from its text. */
module JsonGrammar {
  import opened Wrappers
  import opened CanonicalJson

  // ----- Strings -----

  function HexValue(c: char): (r: Option<nat>)
    ensures r.Some? ==> r.value < 16
  {
    if '0' <= c <= '9' then Some(c as int - '0' as int)
    else if 'a' <= c <= 'f' then Some(c as int - 'a' as int + 10)
    else if 'A' <= c <= 'F' then Some(c as int - 'A' as int + 10)
    else None
  }

  /** The character of four hexadecimal digits; a surrogate half is not a character. */
  function CodeUnit(a: char, b: char, c: char, d: char): Option<char> {
    match (HexValue(a), HexValue(b), HexValue(c), HexValue(d))
    case (Some(x), Some(y), Some(z), Some(w)) =>
      var n := ((x * 16 + y) * 16 + z) * 16 + w;
      if n < 0xD800 || n > 0xDFFF then Some(n as char) else None
    case _ => None
  }

  function Unescaped(c: char): Option<char> {
    if c == '"' then Some('"')
    else if c == '\\' then Some('\\')
    else if c == '/' then Some('/')
    else if c == 'b' then Some(8 as char)
    else if c == 'f' then Some(12 as char)
    else if c == 'n' then Some('\n')
    else if c == 'r' then Some('\r')
    else if c == 't' then Some('\t')
    else None
  }

  function Prepend(c: char, r: Option<(string, string)>): Option<(string, string)> {
    match r
    case None => None
    case Some((s, rest)) => Some(([c] + s, rest))
  }

  /** Reads the rest of a string up to its closing quote. */
  function ReadString(t: string): (r: Option<(string, string)>)
    ensures r.Some? ==> |r.value.1| < |t|
  {
    if t == [] then None
    else if t[0] == '"' then Some(("", t[1..]))
    else if t[0] == '\\' then
      if |t| < 2 then None
      else if t[1] == 'u' then
        if |t| < 6 then None else
          match CodeUnit(t[2], t[3], t[4], t[5])
          case None => None
          case Some(c) => Prepend(c, ReadString(t[6..]))
      else
        match Unescaped(t[1])
        case None => None
        case Some(c) => Prepend(c, ReadString(t[2..]))
    else if t[0] < ' ' then None
    else Prepend(t[0], ReadString(t[1..]))
  }

  lemma {:induction false} HexReadBack(n: nat)
    requires n < 16
    ensures HexValue(HexDigit(n)) == Some(n)
  {}

  lemma {:induction false} ReadEscaped(c: char, tail: string)
    ensures ReadString(EscapeChar(c) + tail) == Prepend(c, ReadString(tail))
  {
    var t := EscapeChar(c) + tail;
    var n := c as int;
    if |EscapeChar(c)| == 6 {
      HexReadBack(n / 16);
      HexReadBack(n % 16);
      HexReadBack(0);
      assert t[2..][0] == '0' && t[6..] == tail;
      assert CodeUnit(t[2], t[3], t[4], t[5]) == Some(c);
    } else if |EscapeChar(c)| == 2 {
      assert t[2..] == tail;
    } else {
      assert t[1..] == tail;
    }
  }

  lemma {:induction false} ReadQuoted(s: string, rest: string)
    ensures ReadString(Escaped(s) + "\"" + rest) == Some((s, rest))
  {
    if s == [] {
      assert Escaped(s) + "\"" + rest == "\"" + rest;
    } else {
      ReadQuoted(s[1..], rest);
      assert Escaped(s) + "\"" + rest == EscapeChar(s[0]) + (Escaped(s[1..]) + "\"" + rest);
      ReadEscaped(s[0], Escaped(s[1..]) + "\"" + rest);
      assert [s[0]] + s[1..] == s;
    }
  }

  // ----- Numbers and literals -----

  /** How many number characters t starts with. */
  function NumberLength(t: string): (n: nat)
    ensures n <= |t| && forall c <- t[..n] :: IsNumberChar(c)
  {
    if t == [] || !IsNumberChar(t[0]) then 0 else
      var n := NumberLength(t[1..]);
      assert t[..1 + n] == [t[0]] + t[1..][..n];
      1 + n
  }

  predicate StartsNumber(t: string) { t != [] && IsNumberChar(t[0]) }

  lemma {:induction false} ReadNumber(text: string, rest: string)
    requires (forall c <- text :: IsNumberChar(c)) && !StartsNumber(rest)
    ensures NumberLength(text + rest) == |text|
  {
    if text == [] {
      assert text + rest == rest;
    } else {
      assert (text + rest)[1..] == text[1..] + rest;
      ReadNumber(text[1..], rest);
    }
  }

  function Literal(t: string, word: string, d: Document): (r: Option<(Document, string)>)
    requires word != []
    ensures r.Some? ==> |r.value.1| < |t|
  {
    if word <= t then Some((d, t[|word|..])) else None
  }

  // ----- Values -----

  function Parse(t: string): (r: Option<(Document, string)>)
    ensures r.Some? ==> |r.value.1| < |t|
    decreases |t|, 0
  {
    if t == [] then None
    else if t[0] == '"' then
      (match ReadString(t[1..]) case None => None case Some((s, rest)) => Some((StrD(s), rest)))
    else if t[0] == '[' then
      if |t| > 1 && t[1] == ']' then Some((ArrD([]), t[2..])) else
        (match ParseItems(t[1..]) case None => None case Some((items, rest)) => Some((ArrD(items), rest)))
    else if t[0] == '{' then
      if |t| > 1 && t[1] == '}' then Some((ObjD([]), t[2..])) else
        (match ParseMembers(t[1..]) case None => None case Some((members, rest)) => Some((ObjD(members), rest)))
    else if t[0] == 'n' then Literal(t, "null", NullD)
    else if t[0] == 't' then Literal(t, "true", BoolD(true))
    else if t[0] == 'f' then Literal(t, "false", BoolD(false))
    else
      var n := NumberLength(t);
      if n == 0 then None else Some((NumD(t[..n]), t[n..]))
  }

  /** Items separated by commas, up to the closing bracket. */
  function ParseItems(t: string): (r: Option<(seq<Document>, string)>)
    ensures r.Some? ==> |r.value.1| < |t|
    decreases |t|, 1
  {
    match Parse(t)
    case None => None
    case Some((d, rest)) =>
      if rest == [] then None
      else if rest[0] == ']' then Some(([d], rest[1..]))
      else if rest[0] == ',' then
        (match ParseItems(rest[1..]) case None => None case Some((ds, more)) => Some(([d] + ds, more)))
      else None
  }

  function ParseMembers(t: string): (r: Option<(seq<Member>, string)>)
    ensures r.Some? ==> |r.value.1| < |t|
    decreases |t|, 1
  {
    if t == [] || t[0] != '"' then None else
      match ReadString(t[1..])
      case None => None
      case Some((key, rest)) =>
        if rest == [] || rest[0] != ':' then None else
          match Parse(rest[1..])
          case None => None
          case Some((d, after)) =>
            if after == [] then None
            else if after[0] == '}' then Some(([Member(key, d)], after[1..]))
            else if after[0] == ',' then
              (match ParseMembers(after[1..]) case None => None
               case Some((ms, more)) => Some(([Member(key, d)] + ms, more)))
            else None
  }

  // ----- Left inverse -----

  /** What follows a value inside a document never continues a number. */
  lemma {:induction false} ParseText(d: Document, rest: string)
    requires !StartsNumber(rest)
    ensures Parse(Text(d) + rest) == Some((d, rest))
    decreases d
  {
    hide Parse, ParseItems, ParseMembers, ItemsText, MembersText, Escaped, IsNumberText;
    match d
    case NullD => ParseLiteral("null", rest);
    case BoolD(b) => ParseLiteral(if b then "true" else "false", rest);
    case NumD(text) => ParseNumber(text, rest);
    case StrD(s) => ParseString(s, rest);
    case ArrD(items) =>
      if items != [] { ParseItemsText(items, rest); }
      ParseArray(items, rest);
    case ObjD(members) =>
      if members != [] { ParseMembersText(members, rest); }
      ParseObject(members, rest);
  }

  lemma {:induction false} ParseArray(items: seq<Document>, rest: string)
    requires items != [] ==> ParseItems(ItemsText(items) + "]" + rest) == Some((items, rest))
    ensures Parse("[" + ItemsText(items) + "]" + rest) == Some((ArrD(items), rest))
  {
    hide ParseItems;
    var t := "[" + ItemsText(items) + "]" + rest;
    if items == [] {
      assert t == "[]" + rest;
    } else {
      ItemsStart(items);
      assert t == "[" + (ItemsText(items) + "]" + rest);
      assert t[1] == ItemsText(items)[0];
    }
  }

  lemma {:induction false} ParseObject(members: seq<Member>, rest: string)
    requires members != [] ==> ParseMembers(MembersText(members) + "}" + rest) == Some((members, rest))
    ensures Parse("{" + MembersText(members) + "}" + rest) == Some((ObjD(members), rest))
  {
    hide ParseMembers;
    var t := "{" + MembersText(members) + "}" + rest;
    if members == [] {
      assert t == "{}" + rest;
    } else {
      MembersStart(members);
      assert t == "{" + (MembersText(members) + "}" + rest);
      assert t[1] == MembersText(members)[0];
    }
  }

  lemma {:induction false} ParseLiteral(word: string, rest: string)
    requires word == "null" || word == "true" || word == "false"
    ensures Parse(word + rest) == Some((if word == "null" then NullD else BoolD(word == "true"), rest))
  {
    assert (word + rest)[|word|..] == rest;
    assert word <= word + rest;
  }

  lemma {:induction false} ParseNumber(text: NumberText, rest: string)
    requires !StartsNumber(rest)
    ensures Parse(text + rest) == Some((NumD(text), rest))
  {
    ReadNumber(text, rest);
    assert (text + rest)[..|text|] == text && (text + rest)[|text|..] == rest;
    assert IsNumberChar((text + rest)[0]);
  }

  lemma {:induction false} ParseString(s: string, rest: string)
    ensures Parse(Quoted(s) + rest) == Some((StrD(s), rest))
  {
    ReadQuoted(s, rest);
    assert Quoted(s) + rest == "\"" + (Escaped(s) + "\"" + rest);
  }

  /** A text never starts with a closing bracket. */
  lemma {:induction false} TextStart(d: Document)
    ensures Text(d) != [] && Text(d)[0] != ']'
  {
    match d
    case NumD(text) => assert IsNumberChar(text[0]);
    case _ =>
  }

  lemma {:induction false} ItemsStart(items: seq<Document>)
    requires items != []
    ensures ItemsText(items) != [] && ItemsText(items)[0] != ']'
  {
    TextStart(items[0]);
  }

  lemma {:induction false} MembersStart(members: seq<Member>)
    requires members != []
    ensures MembersText(members) != [] && MembersText(members)[0] == '"'
  {}

  lemma {:induction false} ParseItemsText(items: seq<Document>, rest: string)
    requires items != []
    ensures ParseItems(ItemsText(items) + "]" + rest) == Some((items, rest))
    decreases items
  {
    hide Parse, Text;
    if |items| == 1 {
      ParseText(items[0], "]" + rest);
      assert ItemsText(items) + "]" + rest == Text(items[0]) + ("]" + rest);
      assert [items[0]] == items;
    } else {
      var tail := ItemsText(items[1..]) + "]" + rest;
      ParseText(items[0], "," + tail);
      ParseItemsText(items[1..], rest);
      assert ItemsText(items) + "]" + rest == Text(items[0]) + ("," + tail);
      assert ("," + tail)[1..] == tail;
      assert [items[0]] + items[1..] == items;
    }
  }

  lemma {:induction false} ParseMembersText(members: seq<Member>, rest: string)
    requires members != []
    ensures ParseMembers(MembersText(members) + "}" + rest) == Some((members, rest))
    decreases members
  {
    hide Parse, Text, ReadString, Escaped;
    var m := members[0];
    if |members| == 1 {
      ParseMember(m, "}" + rest);
      assert MembersText(members) + "}" + rest == MemberText(m) + ("}" + rest);
      assert [m] == members;
    } else {
      var tail := MembersText(members[1..]) + "}" + rest;
      ParseMember(m, "," + tail);
      ParseMembersText(members[1..], rest);
      assert MembersText(members) + "}" + rest == MemberText(m) + ("," + tail);
      assert ("," + tail)[1..] == tail;
      assert [m] + members[1..] == members;
    }
  }

  /** The two halves of a member, its key and then its value. */
  lemma {:induction false} ParseMember(m: Member, rest: string)
    requires !StartsNumber(rest)
    ensures var t := MemberText(m) + rest;
            && t[0] == '"' && ReadString(t[1..]) == Some((m.key, ":" + (Text(m.value) + rest)))
            && Parse(Text(m.value) + rest) == Some((m.value, rest))
    decreases m
  {
    hide Parse, Text, ReadString, Escaped;
    var after := ":" + (Text(m.value) + rest);
    ReadQuoted(m.key, after);
    assert MemberText(m) + rest == "\"" + (Escaped(m.key) + "\"" + after);
    ParseText(m.value, rest);
  }

  /** The parser is a left inverse of the text of documents, which therefore determines them. */
  lemma {:induction false} TextIsInjective(a: Document, b: Document)
    ensures Parse(Text(a)) == Some((a, ""))
    ensures Text(a) == Text(b) <==> a == b
  {
    hide Parse, Text;
    ParseText(a, "");
    ParseText(b, "");
    assert Text(a) + "" == Text(a) && Text(b) + "" == Text(b);
  }
}
