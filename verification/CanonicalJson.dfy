/** The canonical text of a JSON value, which every checksum and the audit chain hash: object entries
    with undefined values are dropped and the others sorted by key. A parser of the JSON grammar
    (sections 4, 5 and 7 of RFC 8259) is its left inverse, so equal text means equal values. */
module CanonicalJson {
  import opened Wrappers
  import opened Texts
  import opened Sorting

  // ----- Values -----

  predicate IsNumberChar(c: char) { '0' <= c <= '9' || c == '-' || c == '+' || c == '.' || c == 'e' }

  predicate IsNumberText(t: string) { t != [] && forall c <- t :: IsNumberChar(c) }

  type NumberText = t: string | IsNumberText(t) witness "0"

  /** A finite number is identified with the text Number.prototype.toString gives it. */
  datatype Number = Finite(text: NumberText) | MinusZero | NonFinite

  datatype Json =
    | Null
    | Bool(b: bool)
    | Num(n: Number)
    | Str(s: string)
    | Arr(items: seq<Json>)
    | Obj(fields: seq<Field>)
    | Undefined

  datatype Field = Field(key: string, value: Json)

  /** A JSON document: what is left of a value when undefined entries and the sign of zero are dropped. */
  datatype Document =
    | NullD
    | BoolD(b: bool)
    | NumD(text: NumberText)
    | StrD(s: string)
    | ArrD(items: seq<Document>)
    | ObjD(members: seq<Member>)

  datatype Member = Member(key: string, value: Document)

  // ----- JSON.stringify of strings -----

  function HexDigit(n: nat): (c: char)
    requires n < 16
  {
    if n < 10 then '0' + n as char else 'a' + (n - 10) as char
  }

  function EscapeChar(c: char): string {
    if c == '"' then "\\\""
    else if c == '\\' then "\\\\"
    else if c == 8 as char then "\\b"
    else if c == 12 as char then "\\f"
    else if c == '\n' then "\\n"
    else if c == '\r' then "\\r"
    else if c == '\t' then "\\t"
    else if c < ' ' then "\\u00" + [HexDigit(c as int / 16), HexDigit(c as int % 16)]
    else [c]
  }

  function Escaped(s: string): string {
    if s == [] then [] else EscapeChar(s[0]) + Escaped(s[1..])
  }

  function Quoted(s: string): string { "\"" + Escaped(s) + "\"" }

  // ----- canonicalJson -----

  datatype Entry = Entry(key: string, text: string)

  predicate ByKey(a: Entry, b: Entry) { Less(a.key, b.key) }

  function EntryTexts(entries: seq<Entry>): seq<string> {
    seq(|entries|, i requires 0 <= i < |entries| => Quoted(entries[i].key) + ":" + entries[i].text)
  }

  /** None stands for the TypeError on undefined and on non-finite numbers. */
  function Canonical(v: Json): Option<string>
    decreases v
  {
    match v
    case Null => Some("null")
    case Bool(b) => Some(if b then "true" else "false")
    case Num(Finite(text)) => Some(text)
    case Num(MinusZero) => Some("0")
    case Num(NonFinite) => None
    case Str(s) => Some(Quoted(s))
    case Arr(items) => (match ItemTexts(items) case None => None case Some(texts) => Some("[" + Joined(texts) + "]"))
    case Obj(fields) =>
      (match Entries(fields)
       case None => None
       case Some(entries) => Some("{" + Joined(EntryTexts(Sort(entries, ByKey))) + "}"))
    case Undefined => None
  }

  function ItemTexts(items: seq<Json>): (r: Option<seq<string>>)
    decreases items
  {
    if items == [] then Some([]) else
      match (Canonical(items[0]), ItemTexts(items[1..]))
      case (Some(text), Some(texts)) => Some([text] + texts)
      case (_, _) => None
  }

  function Entries(fields: seq<Field>): Option<seq<Entry>>
    decreases fields
  {
    if fields == [] then Some([])
    else if fields[0].value.Undefined? then Entries(fields[1..])
    else
      match (Canonical(fields[0].value), Entries(fields[1..]))
      case (Some(text), Some(entries)) => Some([Entry(fields[0].key, text)] + entries)
      case (_, _) => None
  }

  // ----- The document of a value, and its text -----

  predicate MemberBefore(a: Member, b: Member) { Less(a.key, b.key) }

  function Normal(v: Json): Option<Document>
    decreases v
  {
    match v
    case Null => Some(NullD)
    case Bool(b) => Some(BoolD(b))
    case Num(Finite(text)) => Some(NumD(text))
    case Num(MinusZero) => Some(NumD("0"))
    case Num(NonFinite) => None
    case Str(s) => Some(StrD(s))
    case Arr(items) => (match Documents(items) case None => None case Some(ds) => Some(ArrD(ds)))
    case Obj(fields) => (match Members(fields) case None => None case Some(ms) => Some(ObjD(Sort(ms, MemberBefore))))
    case Undefined => None
  }

  function Documents(items: seq<Json>): Option<seq<Document>>
    decreases items
  {
    if items == [] then Some([]) else
      match (Normal(items[0]), Documents(items[1..]))
      case (Some(d), Some(ds)) => Some([d] + ds)
      case (_, _) => None
  }

  function Members(fields: seq<Field>): Option<seq<Member>>
    decreases fields
  {
    if fields == [] then Some([])
    else if fields[0].value.Undefined? then Members(fields[1..])
    else
      match (Normal(fields[0].value), Members(fields[1..]))
      case (Some(d), Some(ms)) => Some([Member(fields[0].key, d)] + ms)
      case (_, _) => None
  }

  function Text(d: Document): string
    decreases d
  {
    match d
    case NullD => "null"
    case BoolD(b) => if b then "true" else "false"
    case NumD(text) => text
    case StrD(s) => Quoted(s)
    case ArrD(items) => "[" + ItemsText(items) + "]"
    case ObjD(members) => "{" + MembersText(members) + "}"
  }

  function ItemsText(items: seq<Document>): string
    decreases items
  {
    if items == [] then "" else if |items| == 1 then Text(items[0]) else Text(items[0]) + "," + ItemsText(items[1..])
  }

  function MemberText(m: Member): string
    decreases m
  {
    Quoted(m.key) + ":" + Text(m.value)
  }

  function MembersText(members: seq<Member>): string
    decreases members
  {
    if members == [] then ""
    else if |members| == 1 then MemberText(members[0])
    else MemberText(members[0]) + "," + MembersText(members[1..])
  }

  // ----- canonicalJson prints the document -----

  function EntryOf(m: Member): Entry { Entry(m.key, Text(m.value)) }

  function EntriesOf(ms: seq<Member>): (es: seq<Entry>)
    ensures |es| == |ms|
  {
    if ms == [] then [] else [EntryOf(ms[0])] + EntriesOf(ms[1..])
  }

  function TextsOf(ds: seq<Document>): (ts: seq<string>)
    ensures |ts| == |ds|
  {
    if ds == [] then [] else [Text(ds[0])] + TextsOf(ds[1..])
  }

  /** The canonical text of a value is the text of its document; only the order differs in which the
      two sort and print. */
  lemma {:induction false} CanonicalIsText(v: Json)
    ensures Canonical(v) == match Normal(v) case None => None case Some(d) => Some(Text(d))
    decreases v
  {
    hide Sort, Joined, Quoted, EntryTexts, ItemsText, MembersText, ItemTexts, Documents, Entries, Members;
    match v
    case Arr(items) =>
      TextsAreTexts(items);
      if Documents(items).Some? { JoinedTexts(Documents(items).value); }
    case Obj(fields) =>
      EntriesAreTexts(fields);
      if Members(fields).Some? {
        SortCommutes(Members(fields).value);
        JoinedMembers(Sort(Members(fields).value, MemberBefore));
      }
    case Null =>
    case Bool(_) =>
    case Num(_) =>
    case Str(_) =>
    case Undefined =>
  }

  lemma {:induction false} TextsAreTexts(items: seq<Json>)
    ensures ItemTexts(items) == match Documents(items) case None => None case Some(ds) => Some(TextsOf(ds))
    decreases items
  {
    if items != [] {
      CanonicalIsText(items[0]);
      TextsAreTexts(items[1..]);
    }
  }

  lemma {:induction false} EntriesAreTexts(fields: seq<Field>)
    ensures Entries(fields) == match Members(fields) case None => None case Some(ms) => Some(EntriesOf(ms))
    decreases fields
  {
    if fields != [] {
      CanonicalIsText(fields[0].value);
      EntriesAreTexts(fields[1..]);
    }
  }

  lemma {:induction false} JoinedTexts(ds: seq<Document>)
    ensures Joined(TextsOf(ds)) == ItemsText(ds)
  {
    if |ds| > 1 { JoinedTexts(ds[1..]); }
  }

  lemma {:induction false} JoinedMembers(ms: seq<Member>)
    ensures Joined(EntryTexts(EntriesOf(ms))) == MembersText(ms)
  {
    if ms != [] {
      assert EntryTexts(EntriesOf(ms)) == [MemberText(ms[0])] + EntryTexts(EntriesOf(ms[1..]));
      JoinedMembers(ms[1..]);
    }
  }

  lemma {:induction false} SortCommutes(ms: seq<Member>)
    ensures Sort(EntriesOf(ms), ByKey) == EntriesOf(Sort(ms, MemberBefore))
  {
    if ms != [] {
      SortCommutes(ms[1..]);
      InsertCommutes(ms[0], Sort(ms[1..], MemberBefore));
    }
  }

  lemma {:induction false} InsertCommutes(m: Member, ms: seq<Member>)
    ensures Insert(EntryOf(m), EntriesOf(ms), ByKey) == EntriesOf(Insert(m, ms, MemberBefore))
  {
    if ms != [] && !MemberBefore(m, ms[0]) {
      InsertCommutes(m, ms[1..]);
    } else {
      assert ([m] + ms)[1..] == ms;
    }
  }
}
