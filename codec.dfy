/** The text in which the notes list is stored: `JSON.stringify` of the
    list and `JSON.parse` as its inverse, over the JSON values a note list
    is made of. Strings escape `"` and `\`, numbers are integers written
    in decimal, and no white space is written or read between tokens. */
module NoteCodec {
  import opened Wrappers
  import opened NoteModel

  /** A JSON value; the numbers are the integers, the only numbers a note holds. */
  datatype Json =
    | Null
    | Bool(b: bool)
    | Num(n: int)
    | Str(s: string)
    | Arr(items: seq<Json>)
    | Obj(members: seq<Member>)

  datatype Member = Member(key: string, value: Json)

  predicate IsDigit(c: char)
  {
    '0' <= c <= '9'
  }

  // ---------------------------------------------------------------- writing
  // Each writer produces its text followed by a given `rest`, so that the
  // round-trip proofs never need to re-associate concatenations.

  /** The characters of `s` with `"` and `\` escaped, followed by `rest`. */
  function EscapeThen(s: string, rest: string): string
  {
    if s == [] then rest
    else if s[0] == '"' || s[0] == '\\' then ['\\', s[0]] + EscapeThen(s[1..], rest)
    else [s[0]] + EscapeThen(s[1..], rest)
  }

  /** A string literal followed by `rest`. */
  function QuoteThen(s: string, rest: string): string
  {
    "\"" + EscapeThen(s, "\"" + rest)
  }

  function Digit(d: nat): char
    requires d < 10
  {
    ('0' as int + d) as char
  }

  /** The decimal digits of `n`, most significant first. */
  function Digits(n: nat): (r: string)
    ensures r != [] && forall i :: 0 <= i < |r| ==> IsDigit(r[i])
    decreases n
  {
    (if n < 10 then [] else Digits(n / 10)) + [Digit(n % 10)]
  }

  /** An integer in decimal, followed by `rest`. */
  function IntThen(i: int, rest: string): string
  {
    if i < 0 then "-" + (Digits(-i) + rest) else Digits(i) + rest
  }

  function ValueThen(v: Json, rest: string): string
    decreases v, 1
  {
    match v
    case Null => "null" + rest
    case Bool(b) => (if b then "true" else "false") + rest
    case Num(i) => IntThen(i, rest)
    case Str(s) => QuoteThen(s, rest)
    case Arr(items) => "[" + (if items == [] then "]" + rest else ItemsThen(items, "]" + rest))
    case Obj(ms) => "{" + (if ms == [] then "}" + rest else MembersThen(ms, "}" + rest))
  }

  /** The elements of a non-empty array, separated by commas. */
  function ItemsThen(items: seq<Json>, rest: string): string
    requires items != []
    decreases items, 0
  {
    ValueThen(items[0], if |items| == 1 then rest else "," + ItemsThen(items[1..], rest))
  }

  /** The members of a non-empty object, `"key":value`, separated by commas. */
  function MembersThen(ms: seq<Member>, rest: string): string
    requires ms != []
    decreases ms, 0
  {
    QuoteThen(ms[0].key, ":" + ValueThen(ms[0].value,
      if |ms| == 1 then rest else "," + MembersThen(ms[1..], rest)))
  }

  /** `JSON.stringify(v)`. */
  function Stringify(v: Json): string
  {
    ValueThen(v, [])
  }

  // ---------------------------------------------------------------- reading
  // Each parser consumes a prefix of its input and returns the value read
  // and the rest, or None where `JSON.parse` throws.

  /** `s` begins with `lit`. */
  predicate StartsWith(lit: string, s: string)
  {
    |lit| <= |s| && (lit == [] || (s[0] == lit[0] && StartsWith(lit[1..], s[1..])))
  }

  function Lit(lit: string, s: string): (r: Option<string>)
    ensures r.Some? ==> |r.value| == |s| - |lit|
  {
    if StartsWith(lit, s) then Some(s[|lit|..]) else None
  }

  /** The characters of a string literal up to its closing quote. */
  function StringBody(s: string): (r: Option<(string, string)>)
    ensures r.Some? ==> |r.value.1| < |s|
  {
    if s == [] then None
    else if s[0] == '"' then Some(([], s[1..]))
    else if s[0] == '\\' then
      if |s| >= 2 && (s[1] == '"' || s[1] == '\\') then
        var t :- StringBody(s[2..]);
        Some(([s[1]] + t.0, t.1))
      else None
    else
      var t :- StringBody(s[1..]);
      Some(([s[0]] + t.0, t.1))
  }

  function ParseString(s: string): (r: Option<(string, string)>)
    ensures r.Some? ==> |r.value.1| < |s|
  {
    if s != [] && s[0] == '"' then StringBody(s[1..]) else None
  }

  /** The number of decimal digits at the start of `s`. */
  function DigitRun(s: string): (k: nat)
    ensures k <= |s|
    ensures forall i :: 0 <= i < k ==> IsDigit(s[i])
    ensures k == |s| || !IsDigit(s[k])
  {
    if s != [] && IsDigit(s[0]) then 1 + DigitRun(s[1..]) else 0
  }

  function DigitsValue(ds: string): nat
    requires forall i :: 0 <= i < |ds| ==> IsDigit(ds[i])
  {
    if ds == [] then 0
    else
      assert IsDigit(ds[|ds| - 1]);
      DigitsValue(ds[..|ds| - 1]) * 10 + (ds[|ds| - 1] as int - '0' as int)
  }

  /** A run of digits without a superfluous leading zero. */
  function ParseNat(s: string): (r: Option<(nat, string)>)
    ensures r.Some? ==> |r.value.1| < |s|
  {
    var k := DigitRun(s);
    if k == 0 || (k > 1 && s[0] == '0') then None else Some((DigitsValue(s[..k]), s[k..]))
  }

  function ParseInt(s: string): (r: Option<(int, string)>)
    ensures r.Some? ==> |r.value.1| < |s|
  {
    if s != [] && s[0] == '-' then
      var t :- ParseNat(s[1..]);
      Some((-(t.0 as int), t.1))
    else
      var t :- ParseNat(s);
      Some((t.0 as int, t.1))
  }

  function ParseValue(s: string): (r: Option<(Json, string)>)
    ensures r.Some? ==> |r.value.1| < |s|
    decreases |s|, 0
  {
    if s == [] then None
    else if s[0] == 'n' then ParseLiteral("null", Null, s)
    else if s[0] == 't' then ParseLiteral("true", Bool(true), s)
    else if s[0] == 'f' then ParseLiteral("false", Bool(false), s)
    else if s[0] == '"' then ParseStr(s)
    else if s[0] == '[' then ParseArr(s[1..])
    else if s[0] == '{' then ParseObj(s[1..])
    else ParseNum(s)
  }

  /** One of the literal words `null`, `true`, `false`. */
  function ParseLiteral(lit: string, v: Json, s: string): (r: Option<(Json, string)>)
    requires lit != []
    ensures r.Some? ==> r.value.0 == v && |r.value.1| < |s|
  {
    var rest :- Lit(lit, s);
    Some((v, rest))
  }

  function ParseStr(s: string): (r: Option<(Json, string)>)
    ensures r.Some? ==> r.value.0.Str? && |r.value.1| < |s|
  {
    var t :- ParseString(s);
    Some((Str(t.0), t.1))
  }

  function ParseNum(s: string): (r: Option<(Json, string)>)
    ensures r.Some? ==> r.value.0.Num? && |r.value.1| < |s|
  {
    var t :- ParseInt(s);
    Some((Num(t.0), t.1))
  }

  /** An array after its opening bracket. */
  function ParseArr(s: string): (r: Option<(Json, string)>)
    ensures r.Some? ==> r.value.0.Arr? && |r.value.1| < |s|
    decreases |s|, 2
  {
    if s != [] && s[0] == ']' then Some((Arr([]), s[1..]))
    else
      var t :- ParseItems(s);
      Some((Arr(t.0), t.1))
  }

  /** An object after its opening brace. */
  function ParseObj(s: string): (r: Option<(Json, string)>)
    ensures r.Some? ==> r.value.0.Obj? && |r.value.1| < |s|
    decreases |s|, 2
  {
    if s != [] && s[0] == '}' then Some((Obj([]), s[1..]))
    else
      var t :- ParseMembers(s);
      Some((Obj(t.0), t.1))
  }

  /** Array elements separated by commas, through the closing bracket. */
  function ParseItems(s: string): (r: Option<(seq<Json>, string)>)
    ensures r.Some? ==> |r.value.1| < |s|
    decreases |s|, 1
  {
    var t :- ParseValue(s);
    var next := t.1;
    if next != [] && next[0] == ',' then
      var u :- ParseItems(next[1..]);
      Some(([t.0] + u.0, u.1))
    else if next != [] && next[0] == ']' then Some(([t.0], next[1..]))
    else None
  }

  /** Object members separated by commas, through the closing brace. */
  function ParseMembers(s: string): (r: Option<(seq<Member>, string)>)
    ensures r.Some? ==> |r.value.1| < |s|
    decreases |s|, 1
  {
    var k :- ParseString(s);
    var s1 :- Lit(":", k.1);
    var t :- ParseValue(s1);
    var next := t.1;
    if next != [] && next[0] == ',' then
      var u :- ParseMembers(next[1..]);
      Some(([Member(k.0, t.0)] + u.0, u.1))
    else if next != [] && next[0] == '}' then Some(([Member(k.0, t.0)], next[1..]))
    else None
  }

  /** `JSON.parse(s)`: a whole value and nothing after it. */
  function Parse(s: string): (r: Option<Json>)
  {
    var t :- ParseValue(s);
    if t.1 == [] then Some(t.0) else None
  }

  // ------------------------------------------------------------ notes in JSON

  function NoteJson(n: Note): Json
  {
    Obj([Member("id", Str(n.id)), Member("title", Str(n.title)), Member("body", Str(n.body)),
         Member("pinned", Bool(n.pinned)), Member("createdAt", Num(n.createdAt)),
         Member("updatedAt", Num(n.updatedAt))])
  }

  function NotesJson(xs: seq<Note>): (r: Json)
    ensures r.Arr? && |r.items| == |xs|
    ensures forall i :: 0 <= i < |xs| ==> r.items[i] == NoteJson(xs[i])
  {
    Arr(seq(|xs|, i requires 0 <= i < |xs| => NoteJson(xs[i])))
  }

  /** The value of `key` in an object; a repeated key keeps its last value. */
  function Field(ms: seq<Member>, key: string): (r: Option<Json>)
  {
    if ms == [] then None
    else if ms[|ms| - 1].key == key then Some(ms[|ms| - 1].value)
    else Field(ms[..|ms| - 1], key)
  }

  function StrField(ms: seq<Member>, key: string): Option<string>
  {
    match Field(ms, key)
    case Some(Str(s)) => Some(s)
    case _ => None
  }

  function BoolField(ms: seq<Member>, key: string): Option<bool>
  {
    match Field(ms, key)
    case Some(Bool(b)) => Some(b)
    case _ => None
  }

  function NumField(ms: seq<Member>, key: string): Option<int>
  {
    match Field(ms, key)
    case Some(Num(i)) => Some(i)
    case _ => None
  }

  /** Reads a note from an object that has the six fields with their types. */
  function NoteOf(v: Json): Option<Note>
  {
    if !v.Obj? then None
    else
      var id :- StrField(v.members, "id");
      var title :- StrField(v.members, "title");
      var body :- StrField(v.members, "body");
      var pinned :- BoolField(v.members, "pinned");
      var createdAt :- NumField(v.members, "createdAt");
      var updatedAt :- NumField(v.members, "updatedAt");
      Some(Note(id, title, body, pinned, createdAt, updatedAt))
  }

  function NotesOfItems(items: seq<Json>): (r: Option<seq<Note>>)
    ensures r.Some? ==> |r.value| == |items|
  {
    if items == [] then Some([])
    else
      var n :- NoteOf(items[0]);
      var ns :- NotesOfItems(items[1..]);
      Some([n] + ns)
  }

  /** The notes an array of note objects holds; None for any other value. */
  function NotesOf(v: Json): Option<seq<Note>>
  {
    if v.Arr? then NotesOfItems(v.items) else None
  }

  /** `JSON.stringify(notes)`. */
  function Encode(xs: seq<Note>): string
  {
    Stringify(NotesJson(xs))
  }

  // ------------------------------------------------------------ round trips

  lemma {:induction false} StartsWithOf(lit: string, rest: string)
    ensures StartsWith(lit, lit + rest)
  {
    if lit != [] {
      assert (lit + rest)[1..] == lit[1..] + rest;
      StartsWithOf(lit[1..], rest);
    }
  }

  lemma LitRoundTrip(lit: string, rest: string)
    ensures Lit(lit, lit + rest) == Some(rest)
  {
    StartsWithOf(lit, rest);
    assert (lit + rest)[|lit|..] == rest;
  }

  lemma DropFirst(c: char, t: string)
    ensures ([c] + t)[1..] == t
  {
  }

  lemma DropTwo(c: char, d: char, t: string)
    ensures ([c, d] + t)[2..] == t
  {
  }

  lemma StringBodyPlain(c: char, tail: string, body: string, rest: string)
    requires c != '"' && c != '\\' && StringBody(tail) == Some((body, rest))
    ensures StringBody([c] + tail) == Some(([c] + body, rest))
  {
    DropFirst(c, tail);
  }

  lemma StringBodyEscaped(c: char, tail: string, body: string, rest: string)
    requires (c == '"' || c == '\\') && StringBody(tail) == Some((body, rest))
    ensures StringBody(['\\', c] + tail) == Some(([c] + body, rest))
  {
    DropTwo('\\', c, tail);
  }

  lemma {:induction false} StringBodyRoundTrip(s: string, rest: string)
    ensures StringBody(EscapeThen(s, "\"" + rest)) == Some((s, rest))
  {
    if s == [] {
      DropFirst('"', rest);
    } else {
      var tail := EscapeThen(s[1..], "\"" + rest);
      StringBodyRoundTrip(s[1..], rest);
      if s[0] == '"' || s[0] == '\\' {
        StringBodyEscaped(s[0], tail, s[1..], rest);
      } else {
        StringBodyPlain(s[0], tail, s[1..], rest);
      }
      assert [s[0]] + s[1..] == s;
    }
  }

  lemma StringRoundTrip(s: string, rest: string)
    ensures ParseString(QuoteThen(s, rest)) == Some((s, rest))
  {
    DropFirst('"', EscapeThen(s, "\"" + rest));
    StringBodyRoundTrip(s, rest);
  }

  lemma {:induction false} DigitRunOf(ds: string, rest: string)
    requires forall i :: 0 <= i < |ds| ==> IsDigit(ds[i])
    requires rest == [] || !IsDigit(rest[0])
    ensures DigitRun(ds + rest) == |ds|
  {
    if ds != [] {
      assert (ds + rest)[1..] == ds[1..] + rest;
      DigitRunOf(ds[1..], rest);
    }
  }

  lemma {:induction false} DigitsValueOf(n: nat)
    ensures DigitsValue(Digits(n)) == n
    decreases n
  {
    var ds := Digits(n);
    var front := if n < 10 then [] else Digits(n / 10);
    assert ds[..|ds| - 1] == front;
    if n >= 10 {
      DigitsValueOf(n / 10);
    }
  }

  /** `JSON.stringify` writes no leading zero. */
  lemma {:induction false} DigitsLead(n: nat)
    ensures |Digits(n)| > 1 ==> Digits(n)[0] != '0'
    decreases n
  {
    if n >= 10 {
      var front := Digits(n / 10);
      assert Digits(n)[0] == front[0];
      if n / 10 >= 10 {
        DigitsLead(n / 10);
      }
    }
  }

  lemma NatRoundTrip(n: nat, rest: string)
    requires rest == [] || !IsDigit(rest[0])
    ensures ParseNat(Digits(n) + rest) == Some((n, rest))
  {
    var ds := Digits(n);
    DigitRunOf(ds, rest);
    DigitsLead(n);
    assert (ds + rest)[0] == ds[0];
    assert (ds + rest)[..|ds|] == ds && (ds + rest)[|ds|..] == rest;
    DigitsValueOf(n);
  }

  lemma ParseNegative(s: string, n: nat, rest: string)
    requires s != [] && s[0] == '-' && ParseNat(s[1..]) == Some((n, rest))
    ensures ParseInt(s) == Some((-(n as int), rest))
  {
  }

  lemma ParseNonNegative(s: string, n: nat, rest: string)
    requires s != [] && s[0] != '-' && ParseNat(s) == Some((n, rest))
    ensures ParseInt(s) == Some((n, rest))
  {
  }


  lemma NegativeRoundTrip(i: int, rest: string)
    requires i < 0 && (rest == [] || !IsDigit(rest[0]))
    ensures ParseInt(IntThen(i, rest)) == Some((i, rest))
  {
    var tail := Digits(-i) + rest;
    DropFirst('-', tail);
    NatRoundTrip(-i, rest);
    ParseNegative("-" + tail, -i, rest);
  }

  lemma NonNegativeRoundTrip(i: int, rest: string)
    requires i >= 0 && (rest == [] || !IsDigit(rest[0]))
    ensures ParseInt(IntThen(i, rest)) == Some((i, rest))
  {
    var ds := Digits(i);
    var s := ds + rest;
    assert s[0] == ds[0] && IsDigit(ds[0]);
    NatRoundTrip(i, rest);
    ParseNonNegative(s, i, rest);
  }

  lemma IntRoundTrip(i: int, rest: string)
    requires rest == [] || !IsDigit(rest[0])
    ensures ParseInt(IntThen(i, rest)) == Some((i, rest))
  {
    if i < 0 {
      NegativeRoundTrip(i, rest);
    } else {
      NonNegativeRoundTrip(i, rest);
    }
  }


  // One step of each parser, over arbitrary text.

  lemma ParseValueNum(s: string)
    requires s != [] && (s[0] == '-' || IsDigit(s[0]))
    ensures ParseValue(s) == ParseNum(s)
  {
    assert s[0] !in {'n', 't', 'f', '"', '[', '{'};
  }

  lemma ParseValueStr(s: string, x: string, r: string)
    requires s != [] && s[0] == '"' && ParseString(s) == Some((x, r))
    ensures ParseValue(s) == Some((Str(x), r))
  {
  }

  lemma ParseValueArr(t: string, items: seq<Json>, r: string)
    requires t != [] && t[0] != ']' && ParseItems(t) == Some((items, r))
    ensures ParseValue("[" + t) == Some((Arr(items), r))
  {
    DropFirst('[', t);
  }

  lemma ParseValueObj(t: string, ms: seq<Member>, r: string)
    requires t != [] && t[0] != '}' && ParseMembers(t) == Some((ms, r))
    ensures ParseValue("{" + t) == Some((Obj(ms), r))
  {
    DropFirst('{', t);
  }

  lemma ParseItemsMore(s: string, v: Json, next: string, vs: seq<Json>, r: string)
    requires ParseValue(s) == Some((v, next))
    requires next != [] && next[0] == ',' && ParseItems(next[1..]) == Some((vs, r))
    ensures ParseItems(s) == Some(([v] + vs, r))
  {
  }

  lemma ParseItemsLast(s: string, v: Json, next: string)
    requires ParseValue(s) == Some((v, next)) && next != [] && next[0] == ']'
    ensures ParseItems(s) == Some(([v], next[1..]))
  {
  }

  lemma ParseMembersMore(s: string, k: string, s1: string, v: Json, next: string, ms: seq<Member>, r: string)
    requires ParseString(s) == Some((k, ":" + s1)) && ParseValue(s1) == Some((v, next))
    requires next != [] && next[0] == ',' && ParseMembers(next[1..]) == Some((ms, r))
    ensures ParseMembers(s) == Some(([Member(k, v)] + ms, r))
  {
    LitRoundTrip(":", s1);
  }

  lemma ParseMembersLast(s: string, k: string, s1: string, v: Json, next: string)
    requires ParseString(s) == Some((k, ":" + s1)) && ParseValue(s1) == Some((v, next))
    requires next != [] && next[0] == '}'
    ensures ParseMembers(s) == Some(([Member(k, v)], next[1..]))
  {
    LitRoundTrip(":", s1);
  }

  /** The text of a value starts with neither closing bracket nor brace. */
  lemma ValueStart(v: Json, rest: string)
    ensures ValueThen(v, rest) != []
    ensures ValueThen(v, rest)[0] != ']' && ValueThen(v, rest)[0] != '}'
  {
    match v
    case Num(i) =>
      if i < 0 {
        assert ValueThen(v, rest)[0] == '-';
      } else {
        var ds := Digits(i);
        assert ValueThen(v, rest)[0] == ds[0] && IsDigit(ds[0]);
      }
    case _ =>
  }

  // The round trip, by mutual induction over the value.

  lemma ValueRoundTrip(v: Json, rest: string)
    requires rest == [] || !IsDigit(rest[0])
    ensures ParseValue(ValueThen(v, rest)) == Some((v, rest))
    decreases v, 2
  {
    match v
    case Null =>
      LitRoundTrip("null", rest);
    case Bool(b) =>
      if b {
        LitRoundTrip("true", rest);
      } else {
        LitRoundTrip("false", rest);
      }
    case Num(i) =>
      IntRoundTrip(i, rest);
      ValueStart(v, rest);
      ParseValueNum(ValueThen(v, rest));
    case Str(x) =>
      StringRoundTrip(x, rest);
      ParseValueStr(ValueThen(v, rest), x, rest);
    case Arr(items) =>
      ArrRoundTrip(items, rest);
    case Obj(ms) =>
      ObjRoundTrip(ms, rest);
  }

  lemma ArrRoundTrip(items: seq<Json>, rest: string)
    ensures ParseValue(ValueThen(Arr(items), rest)) == Some((Arr(items), rest))
    decreases items, 1
  {
    if items == [] {
      DropFirst('[', "]" + rest);
      DropFirst(']', rest);
    } else {
      var t := ItemsThen(items, "]" + rest);
      ItemsRoundTrip(items, rest);
      ValueStart(items[0], if |items| == 1 then "]" + rest else "," + ItemsThen(items[1..], "]" + rest));
      ParseValueArr(t, items, rest);
    }
  }

  lemma ObjRoundTrip(ms: seq<Member>, rest: string)
    ensures ParseValue(ValueThen(Obj(ms), rest)) == Some((Obj(ms), rest))
    decreases ms, 1
  {
    if ms == [] {
      DropFirst('{', "}" + rest);
      DropFirst('}', rest);
    } else {
      var t := MembersThen(ms, "}" + rest);
      MembersRoundTrip(ms, rest);
      ParseValueObj(t, ms, rest);
    }
  }

  lemma ItemsRoundTrip(items: seq<Json>, rest: string)
    requires items != []
    ensures ParseItems(ItemsThen(items, "]" + rest)) == Some((items, rest))
    decreases items, 0
  {
    var s := ItemsThen(items, "]" + rest);
    if |items| == 1 {
      var next := "]" + rest;
      ValueRoundTrip(items[0], next);
      DropFirst(']', rest);
      ParseItemsLast(s, items[0], next);
      assert [items[0]] == items;
    } else {
      var more := ItemsThen(items[1..], "]" + rest);
      var next := "," + more;
      ValueRoundTrip(items[0], next);
      ItemsRoundTrip(items[1..], rest);
      DropFirst(',', more);
      ParseItemsMore(s, items[0], next, items[1..], rest);
      assert [items[0]] + items[1..] == items;
    }
  }

  lemma MembersRoundTrip(ms: seq<Member>, rest: string)
    requires ms != []
    ensures ParseMembers(MembersThen(ms, "}" + rest)) == Some((ms, rest))
    decreases ms, 0
  {
    var s := MembersThen(ms, "}" + rest);
    var m := ms[0];
    if |ms| == 1 {
      var next := "}" + rest;
      var s1 := ValueThen(m.value, next);
      StringRoundTrip(m.key, ":" + s1);
      ValueRoundTrip(m.value, next);
      DropFirst('}', rest);
      ParseMembersLast(s, m.key, s1, m.value, next);
      assert [Member(m.key, m.value)] == ms;
    } else {
      var more := MembersThen(ms[1..], "}" + rest);
      var next := "," + more;
      var s1 := ValueThen(m.value, next);
      StringRoundTrip(m.key, ":" + s1);
      ValueRoundTrip(m.value, next);
      MembersRoundTrip(ms[1..], rest);
      DropFirst(',', more);
      ParseMembersMore(s, m.key, s1, m.value, next, ms[1..], rest);
      assert [Member(m.key, m.value)] + ms[1..] == ms;
    }
  }

  lemma {:induction false} StartsWithPrefix(lit: string, s: string)
    requires StartsWith(lit, s)
    ensures s[..|lit|] == lit
  {
    if lit != [] {
      StartsWithPrefix(lit[1..], s[1..]);
      assert s[..|lit|] == [s[0]] + s[1..][..|lit| - 1];
      assert lit == [lit[0]] + lit[1..];
    }
  }

  /** Only the text `null` parses to null. */
  lemma ParseNull(s: string)
    requires Parse(s) == Some(Null)
    ensures s == "null"
  {
    assert s != [] && s[0] == 'n';
    assert StartsWith("null", s) && |s| == 4;
    StartsWithPrefix("null", s);
  }

  /** Only the text `false` parses to false. */
  lemma ParseFalse(s: string)
    requires Parse(s) == Some(Bool(false))
    ensures s == "false"
  {
    assert s != [] && s[0] == 'f';
    assert StartsWith("false", s) && |s| == 5;
    StartsWithPrefix("false", s);
  }

  /** A run of digits worth zero is all zeros. */
  lemma {:induction false} DigitsValueZero(ds: string)
    requires forall i :: 0 <= i < |ds| ==> IsDigit(ds[i])
    requires DigitsValue(ds) == 0
    ensures forall i :: 0 <= i < |ds| ==> ds[i] == '0'
  {
    if ds != [] {
      var front := ds[..|ds| - 1];
      assert IsDigit(ds[|ds| - 1]);
      DigitsValueZero(front);
      forall i | 0 <= i < |ds| ensures ds[i] == '0' {
        if i < |ds| - 1 {
          assert ds[i] == front[i];
        }
      }
    }
  }

  /** Zero has no other spelling than `0` and `-0`. */
  lemma NatZero(u: string)
    requires ParseNat(u) == Some((0, []))
    ensures u == "0"
  {
    var k := DigitRun(u);
    assert u[k..] == [] && k == |u|;
    assert u[..k] == u;
    DigitsValueZero(u);
  }

  lemma ParseZero(s: string)
    requires Parse(s) == Some(Num(0))
    ensures s == "0" || s == "-0"
  {
    assert s != [] && s[0] !in {'n', 't', 'f', '"', '[', '{'};
    assert ParseNum(s) == Some((Num(0), []));
    assert ParseInt(s) == Some((0, []));
    if s[0] == '-' {
      NatZero(s[1..]);
      assert s == [s[0]] + s[1..];
    } else {
      NatZero(s);
    }
  }

  /** Only the text `""` parses to the empty string. */
  lemma ParseEmptyString(s: string)
    requires Parse(s) == Some(Str([]))
    ensures s == "\"\""
  {
    assert s != [] && s[0] == '"';
    assert ParseString(s) == Some(([], []));
    var b := s[1..];
    assert StringBody(b) == Some(([], []));
    assert b != [] && b[0] == '"' && b[1..] == [];
    assert s == [s[0]] + b;
  }

  /** The values `x || []` replaces by `[]`: null, false, 0 and the empty string. */
  predicate Falsy(v: Json)
  {
    v == Null || v == Bool(false) || v == Num(0) || v == Str([])
  }

  /** The texts `JSON.parse` reads as a falsy value. */
  const FalsyTexts: set<string> := {"null", "false", "0", "-0", "\"\""}

  lemma ParseNullText()
    ensures Parse("null") == Some(Null)
  {
    LitRoundTrip("null", []);
    assert "null" + [] == "null";
  }

  lemma ParseFalseText()
    ensures Parse("false") == Some(Bool(false))
  {
    LitRoundTrip("false", []);
    assert "false" + [] == "false";
  }

  lemma ParseZeroText()
    ensures Parse("0") == Some(Num(0))
  {
    assert DigitRun("0") == 1;
    assert ParseNat("0") == Some((0, []));
  }

  lemma ParseMinusZeroText()
    ensures Parse("-0") == Some(Num(0))
  {
    assert "-0"[1..] == "0";
    assert DigitRun("0") == 1;
    assert ParseNat("0") == Some((0, []));
  }

  lemma ParseEmptyStringText()
    ensures Parse("\"\"") == Some(Str([]))
  {
    StringRoundTrip([], []);
    assert QuoteThen([], []) == "\"\"";
  }

  /** `JSON.parse(s)` is falsy exactly for the five texts above. */
  lemma ParseFalsy(s: string)
    ensures (Parse(s).Some? && Falsy(Parse(s).value)) <==> s in FalsyTexts
  {
    ParseNullText();
    ParseFalseText();
    ParseZeroText();
    ParseMinusZeroText();
    ParseEmptyStringText();
    if Parse(s) == Some(Null) {
      ParseNull(s);
    } else if Parse(s) == Some(Bool(false)) {
      ParseFalse(s);
    } else if Parse(s) == Some(Num(0)) {
      ParseZero(s);
    } else if Parse(s) == Some(Str([])) {
      ParseEmptyString(s);
    }
  }

  /** `JSON.parse(JSON.stringify(v))` is `v` for every value. */
  lemma ParseStringify(v: Json)
    ensures Parse(Stringify(v)) == Some(v)
  {
    ValueRoundTrip(v, []);
  }

  /** A key's value is that of its last occurrence. */
  lemma {:induction false} FieldLastKey(ms: seq<Member>, i: nat, key: string)
    requires i < |ms| && ms[i].key == key
    requires forall j :: i < j < |ms| ==> ms[j].key != key
    ensures Field(ms, key) == Some(ms[i].value)
  {
    if i < |ms| - 1 {
      var front := ms[..|ms| - 1];
      assert front[i] == ms[i];
      FieldLastKey(front, i, key);
    }
  }

  /** Each of the six keys of a note's object holds its field. */
  lemma NoteFields(n: Note)
    ensures var ms := NoteJson(n).members;
      && Field(ms, "id") == Some(Str(n.id))
      && Field(ms, "title") == Some(Str(n.title))
      && Field(ms, "body") == Some(Str(n.body))
      && Field(ms, "pinned") == Some(Bool(n.pinned))
      && Field(ms, "createdAt") == Some(Num(n.createdAt))
      && Field(ms, "updatedAt") == Some(Num(n.updatedAt))
  {
    var ms := NoteJson(n).members;
    assert "createdAt"[0] != "updatedAt"[0];
    FieldLastKey(ms, 0, "id");
    FieldLastKey(ms, 1, "title");
    FieldLastKey(ms, 2, "body");
    FieldLastKey(ms, 3, "pinned");
    FieldLastKey(ms, 4, "createdAt");
    FieldLastKey(ms, 5, "updatedAt");
  }

  /** A note read back from its object is the note. */
  lemma NoteOfJson(n: Note)
    ensures NoteOf(NoteJson(n)) == Some(n)
  {
    NoteFields(n);
  }

  lemma {:induction false} NotesOfItemsJson(xs: seq<Note>)
    ensures NotesOfItems(NotesJson(xs).items) == Some(xs)
  {
    if xs != [] {
      var items := NotesJson(xs).items;
      assert items[1..] == NotesJson(xs[1..]).items;
      NoteOfJson(xs[0]);
      NotesOfItemsJson(xs[1..]);
      assert [xs[0]] + xs[1..] == xs;
    }
  }

  /** Reading back what `saveNotes` wrote gives the same notes in the same order. */
  lemma DecodeEncode(xs: seq<Note>)
    ensures Parse(Encode(xs)) == Some(NotesJson(xs))
    ensures NotesOf(NotesJson(xs)) == Some(xs)
  {
    ParseStringify(NotesJson(xs));
    NotesOfItemsJson(xs);
  }
}
