/**
 * JSON documents written out as text and read back by the parser.
 *
 * A `Doc` is a document as a writer holds it: object members in the order
 * they are written, repeated keys allowed. `Render` writes it as JSON text,
 * `ToNode` is the tree the parser is meant to build from that text, and
 * `ParsesBack` proves that `Value` builds exactly that tree.
 */
module JsonDocuments {
  import opened Results
  import opened FloatLiteral
  import opened JsonLexer
  import opened JsonParser
  import LexerFacts

  datatype Doc =
    | DString(text: string)
    | DNumber(negative: bool, whole: string, fraction: string, exponent: string)
    | DTrue
    | DFalse
    | DNull
    | DArray(items: seq<Doc>)
    | DObject(members: seq<Member>)

  datatype Member = Member(key: string, value: Doc)

  /**
   * The documents the parser reads back: numbers in JSON's form without a `+`
   * in the exponent (the lexer's number characters do not include it), and
   * arrays and objects that are not empty (the parser rejects `[]` and `{}`).
   */
  predicate Writable(d: Doc)
  {
    match d
    case DNumber(_, whole, fraction, exponent) =>
      |whole| > 0 && AllDigits(whole) && AllDigits(fraction) && IsJsonExponent(exponent) &&
      (exponent == "" || exponent[0] != '+')
    case DArray(items) => |items| > 0 && forall k | 0 <= k < |items| :: Writable(items[k])
    case DObject(members) => |members| > 0 && forall k | 0 <= k < |members| :: Writable(members[k].value)
    case _ => true
  }

  /** The JSON text of d, without any whitespace. */
  function Render(d: Doc): string
  {
    match d
    case DString(text) => LexerFacts.Quote(text)
    case DNumber(negative, whole, fraction, exponent) => JsonNumberText(negative, whole, fraction, exponent)
    case DTrue => "true"
    case DFalse => "false"
    case DNull => "null"
    case DArray(items) => "[" + RenderItems(items) + "]"
    case DObject(members) => "{" + RenderMembers(members) + "}"
  }

  /** The elements of an array, separated by commas. */
  function RenderItems(items: seq<Doc>): string
  {
    if |items| == 0 then ""
    else if |items| == 1 then Render(items[0])
    else Render(items[0]) + "," + RenderItems(items[1..])
  }

  /** The members of an object, each `"key":value`, separated by commas. */
  function RenderMembers(members: seq<Member>): string
  {
    if |members| == 0 then ""
    else
      var first := LexerFacts.Quote(members[0].key) + ":" + Render(members[0].value);
      if |members| == 1 then first else first + "," + RenderMembers(members[1..])
  }

  /** The tree for d: object members gathered in writing order, so a later key replaces an earlier one. */
  function ToNode(d: Doc): (n: Node)
    ensures Complete(n)
    decreases d
  {
    match d
    case DString(text) => Node.String(text)
    case DNumber(negative, whole, fraction, exponent) => Node.Number(JsonNumberText(negative, whole, fraction, exponent))
    case DTrue => Node.True
    case DFalse => Node.False
    case DNull => Node.Null
    case DArray(items) => Array(ToNodes(items))
    case DObject(members) => Object(Gather(map[], members))
  }

  function ToNodes(items: seq<Doc>): (ns: seq<Node>)
    ensures |ns| == |items| && forall k | 0 <= k < |items| :: ns[k] == ToNode(items[k]) && Complete(ns[k])
  {
    if |items| == 0 then [] else [ToNode(items[0])] + ToNodes(items[1..])
  }

  /** acc with the members entered one after the other. */
  function Gather(acc: map<string, Node>, members: seq<Member>): (m: map<string, Node>)
    ensures AllValuesComplete(acc) ==> AllValuesComplete(m)
    decreases members
  {
    if |members| == 0 then acc
    else Gather(acc[members[0].key := ToNode(members[0].value)], members[1..])
  }

  // ---- last write wins ----

  /** The value of the last member with the given key. */
  function LastValue(members: seq<Member>, key: string): Option<Doc>
  {
    if |members| == 0 then None
    else if members[|members| - 1].key == key then Some(members[|members| - 1].value)
    else LastValue(members[..|members| - 1], key)
  }

  lemma {:induction false} GatherLast(acc: map<string, Node>, members: seq<Member>, m: Member)
    ensures Gather(acc, members + [m]) == Gather(acc, members)[m.key := ToNode(m.value)]
    decreases |members|
  {
    if |members| == 0 {
      assert members + [m] == [m];
    } else {
      assert (members + [m])[1..] == members[1..] + [m];
      GatherLast(acc[members[0].key := ToNode(members[0].value)], members[1..], m);
    }
  }

  /**
   * Gathering keeps each key once and gives it the value of its last member;
   * keys no member names keep their earlier value.
   */
  lemma {:induction false} LastWriteWins(acc: map<string, Node>, members: seq<Member>, key: string)
    ensures key in Gather(acc, members) <==> key in acc || LastValue(members, key).Some?
    ensures LastValue(members, key).Some? ==> Gather(acc, members)[key] == ToNode(LastValue(members, key).value)
    ensures LastValue(members, key).None? && key in acc ==> Gather(acc, members)[key] == acc[key]
    decreases |members|
  {
    if |members| > 0 {
      var init, last := members[..|members| - 1], members[|members| - 1];
      assert members == init + [last];
      GatherLast(acc, init, last);
      LastWriteWins(acc, init, key);
    }
  }

  // ---- reading a document back ----

  /** The character at e ends a number run: there is one that cannot continue it, or none and the source does not fail. */
  predicate Ends(s: string, b: bool, e: nat)
  {
    e <= |s| && (e == |s| ==> !b) && (e < |s| ==> !IsNumberChar(s[e]))
  }

  lemma OccursSplit(s: string, j: nat, a: string, c: string)
    requires LexerFacts.Occurs(s, j, a + c)
    ensures LexerFacts.Occurs(s, j, a) && LexerFacts.Occurs(s, j + |a|, c)
  {
    forall x | 0 <= x < |a| ensures s[j + x] == a[x] {
      assert (a + c)[x] == a[x];
    }
    forall x | 0 <= x < |c| ensures s[j + |a| + x] == c[x] {
      assert s[j + (|a| + x)] == (a + c)[|a| + x];
    }
  }

  /** A token read at i is what a fetch at i returns, its places moved out. */
  lemma FetchTok(s: string, b: bool, i: nat, line: Span, pos: Span)
    requires i <= |s| && Scan(s, b, i).Tok?
    ensures var f := Fetch(s, b, i, line, pos);
      f.token == Ok(Token(Span(0, 0), Span(0, 0), Scan(s, b, i).data)) && f.next == Scan(s, b, i).next
  {
  }

  /** A delimiter at i is fetched as its token, and the next read starts after it. */
  lemma FetchDelimiter(s: string, b: bool, i: nat, line: Span, pos: Span)
    requires i < |s| && IsDelimiter(s[i])
    ensures var f := Fetch(s, b, i, line, pos);
      f.token == Ok(Token(Span(0, 0), Span(0, 0), DelimiterData(s[i]))) && f.next == i + 1
  {
    FetchTok(s, b, i, line, pos);
  }

  /** The keyword spelled `word` at i is one keyword token. */
  lemma KeywordAt(s: string, b: bool, i: nat, word: string)
    requires word == "true" || word == "false" || word == "null"
    requires LexerFacts.Occurs(s, i, word)
    ensures s[i] == word[0] && StartsKeyword(s[i]) && KeywordRest(s[i]) == word[1..]
    ensures Scan(s, b, i) == Tok(KeywordData(s[i]), i, i + |word| - 1, i + |word|)
  {
    assert s[i] == word[0];
    var rest := KeywordRest(s[i]);
    assert LexerFacts.Spells(s, i, 0, |rest|) by {
      forall x | 0 <= x < |rest| ensures s[i + 1 + x] == rest[x] {
        assert s[i + (1 + x)] == word[1 + x];
      }
    }
    LexerFacts.KeywordMatches(s, b, i, 0);
  }

  /** The scalar documents are single tokens. */
  lemma ScalarToken(d: Doc, s: string, b: bool, i: nat)
    requires Writable(d) && !d.DArray? && !d.DObject?
    requires LexerFacts.Occurs(s, i, Render(d)) && Ends(s, b, i + |Render(d)|)
    ensures var o := Scan(s, b, i);
      o.Tok? && o.next == i + |Render(d)| &&
      o.data == match d
        case DString(text) => Data.String(text)
        case DNumber(_, _, _, _) => Data.Number(Render(d))
        case DTrue => Data.True
        case DFalse => Data.False
        case _ => Data.Null
  {
    match d
    case DString(text) =>
      LexerFacts.StringToken(s, b, i, text);
    case DNumber(negative, whole, fraction, exponent) =>
      var t := Render(d);
      assert s[i..i + |t|] == t;
      LexerFacts.JsonNumberToken(s, b, i, negative, whole, fraction, exponent);
    case DTrue =>
      KeywordAt(s, b, i, "true");
    case DFalse =>
      KeywordAt(s, b, i, "false");
    case DNull =>
      KeywordAt(s, b, i, "null");
  }

  /** A value opened by `[` or `{` is read on by `Elements` or `Members` from the next index. */
  lemma ValueOpens(s: string, b: bool, i: nat, line: Span, pos: Span)
    requires i < |s| && (s[i] == '[' || s[i] == '{')
    ensures var f := Fetch(s, b, i, line, pos);
      Value(s, b, i, line, pos) ==
        if s[i] == '[' then Elements(s, b, i + 1, f.line, f.pos, []) else Members(s, b, i + 1, f.line, f.pos, map[])
  {
    FetchDelimiter(s, b, i, line, pos);
  }

  /** A scalar document is read back as its node. */
  lemma ScalarBack(d: Doc, s: string, b: bool, i: nat, line: Span, pos: Span)
    requires Writable(d) && !d.DArray? && !d.DObject?
    requires LexerFacts.Occurs(s, i, Render(d)) && Ends(s, b, i + |Render(d)|)
    ensures var st := Value(s, b, i, line, pos);
      st.result == Ok(ToNode(d)) && st.next == i + |Render(d)|
  {
    ScalarToken(d, s, b, i);
    FetchTok(s, b, i, line, pos);
  }

  /** One element v, followed by `,` (the loop goes on) or `]` (the array ends). */
  lemma ElementsStep(s: string, b: bool, v: Step, acc: seq<Node>, n: Node, e: nat, last: bool)
    requires AllComplete(acc) && v.result == Ok(n) && v.next == e && Complete(n)
    requires e < |s| && s[e] == if last then ']' else ','
    ensures var f := Fetch(s, b, e, v.line, v.pos);
      ElementValue(s, b, v, acc) ==
        if last then Step(Ok(Array(acc + [n])), e + 1, f.line, f.pos)
        else Elements(s, b, e + 1, f.line, f.pos, acc + [n])
  {
    FetchDelimiter(s, b, e, v.line, v.pos);
  }

  /**
   * A string key at j, fetched as k, followed by `:` at q, fetched as c:
   * `Members` goes on with the value parsed right after the colon.
   */
  lemma MembersOpen(s: string, b: bool, j: nat, line: Span, pos: Span, acc: map<string, Node>, key: string, q: nat,
                    k: Fetched, c: Fetched)
    requires j < q < |s| && AllValuesComplete(acc)
    requires Scan(s, b, j) == Tok(Data.String(key), j, q - 1, q) && s[q] == ':'
    requires k == Fetch(s, b, j, line, pos) && c == Fetch(s, b, q, k.line, k.pos)
    ensures c.next == q + 1
    ensures Members(s, b, j, line, pos, acc) == MemberValue(s, b, Value(s, b, c.next, c.line, c.pos), key, acc)
  {
    FetchTok(s, b, j, line, pos);
    FetchDelimiter(s, b, q, k.line, k.pos);
    MembersUnfold(s, b, j, line, pos, acc, k, c);
  }

  /** `Members` once the key and the colon are fetched as k and c. */
  lemma MembersUnfold(s: string, b: bool, j: nat, line: Span, pos: Span, acc: map<string, Node>, k: Fetched, c: Fetched)
    requires j <= |s| && AllValuesComplete(acc)
    requires k == Fetch(s, b, j, line, pos) && k.token.Ok? && k.token.value.data.String?
    requires k.next <= |s| && c == Fetch(s, b, k.next, k.line, k.pos) && c.token.Ok? && c.token.value.data.Colon?
    ensures c.next <= |s|
    ensures Members(s, b, j, line, pos, acc) == MemberValue(s, b, Value(s, b, c.next, c.line, c.pos), k.token.value.data.text, acc)
  {
  }

  /** A member's value v, followed by `,` (the loop goes on) or `}` (the object ends). */
  lemma MembersStep(s: string, b: bool, v: Step, key: string, acc: map<string, Node>, n: Node, e: nat, last: bool)
    requires AllValuesComplete(acc) && v.result == Ok(n) && v.next == e && Complete(n)
    requires e < |s| && s[e] == if last then '}' else ','
    ensures var f := Fetch(s, b, e, v.line, v.pos);
      MemberValue(s, b, v, key, acc) ==
        if last then Step(Ok(Object(acc[key := n])), e + 1, f.line, f.pos)
        else Members(s, b, e + 1, f.line, f.pos, acc[key := n])
  {
    FetchDelimiter(s, b, e, v.line, v.pos);
  }

  /**
   * Round trip: the text of a document, followed by a character that ends it,
   * parses back to the document's tree, and the parse ends right after the text.
   */
  lemma ParsesBack(d: Doc, s: string, b: bool, i: nat, line: Span, pos: Span)
    requires Writable(d) && LexerFacts.Occurs(s, i, Render(d)) && Ends(s, b, i + |Render(d)|)
    ensures var st := Value(s, b, i, line, pos);
      st.result == Ok(ToNode(d)) && st.next == i + |Render(d)|
    decreases d, 2
  {
    if d.DArray? {
      ArrayBack(d, s, b, i, line, pos);
    } else if d.DObject? {
      ObjectBack(d, s, b, i, line, pos);
    } else {
      ScalarBack(d, s, b, i, line, pos);
    }
  }

  lemma ArrayBack(d: Doc, s: string, b: bool, i: nat, line: Span, pos: Span)
    requires d.DArray? && Writable(d) && LexerFacts.Occurs(s, i, Render(d))
    ensures var st := Value(s, b, i, line, pos);
      st.result == Ok(ToNode(d)) && st.next == i + |Render(d)|
    decreases d, 1
  {
    var body := RenderItems(d.items);
    var f := Fetch(s, b, i, line, pos);
    assert Render(d) == "[" + (body + "]");
    Bracketed(s, b, i, line, pos, '[', body, ']');
    ElementsBack(d.items, s, b, i + 1, f.line, f.pos, []);
    assert [] + ToNodes(d.items) == ToNodes(d.items);
  }

  lemma ObjectBack(d: Doc, s: string, b: bool, i: nat, line: Span, pos: Span)
    requires d.DObject? && Writable(d) && LexerFacts.Occurs(s, i, Render(d))
    ensures var st := Value(s, b, i, line, pos);
      st.result == Ok(ToNode(d)) && st.next == i + |Render(d)|
    decreases d, 1
  {
    var body := RenderMembers(d.members);
    var f := Fetch(s, b, i, line, pos);
    assert Render(d) == "{" + (body + "}");
    Bracketed(s, b, i, line, pos, '{', body, '}');
    var st := Members(s, b, i + 1, f.line, f.pos, map[]);
    assert st.result == Ok(ToNode(d)) && st.next == i + 1 + |body| + 1 by {
      MembersBack(d.members, s, b, i + 1, f.line, f.pos, map[]);
    }
  }

  /** Text opened by `[` or `{` at i: the body after the bracket is read by `Elements` or `Members`. */
  lemma Bracketed(s: string, b: bool, i: nat, line: Span, pos: Span, open: char, body: string, close: char)
    requires open == '[' || open == '{'
    requires LexerFacts.Occurs(s, i, [open] + (body + [close]))
    ensures LexerFacts.Occurs(s, i + 1, body + [close]) && s[i] == open
    ensures var f := Fetch(s, b, i, line, pos);
      Value(s, b, i, line, pos) ==
        if open == '[' then Elements(s, b, i + 1, f.line, f.pos, []) else Members(s, b, i + 1, f.line, f.pos, map[])
  {
    OccursSplit(s, i, [open], body + [close]);
    assert s[i] == [open][0];
    ValueOpens(s, b, i, line, pos);
  }

  /** The elements of an array, written out and followed by `]`, are read back in order. */
  lemma ElementsBack(items: seq<Doc>, s: string, b: bool, j: nat, line: Span, pos: Span, acc: seq<Node>)
    requires |items| > 0 && (forall k | 0 <= k < |items| :: Writable(items[k])) && AllComplete(acc)
    requires LexerFacts.Occurs(s, j, RenderItems(items) + "]")
    ensures var st := Elements(s, b, j, line, pos, acc);
      st.result == Ok(Array(acc + ToNodes(items))) && st.next == j + |RenderItems(items)| + 1
    decreases items, 1
  {
    var n, e, line', pos' := ElementsHead(items, s, b, j, line, pos, acc);
    if |items| == 1 {
      NodesAppend(acc, items);
    } else {
      ItemsTail(items, acc, n);
      ElementsBack(items[1..], s, b, e + 1, line', pos', acc + [n]);
      ElementsJoin(items, s, b, j, line, pos, acc, n, e, line', pos');
    }
  }

  /** The first element read up to e and the rest read after its comma make up the whole array. */
  lemma ElementsJoin(items: seq<Doc>, s: string, b: bool, j: nat, line: Span, pos: Span, acc: seq<Node>,
                     n: Node, e: nat, line': Span, pos': Span)
    requires |items| > 1 && AllComplete(acc) && n == ToNode(items[0]) && Complete(n) && e < |s|
    requires |RenderItems(items)| == |Render(items[0])| + 1 + |RenderItems(items[1..])| && e == j + |Render(items[0])|
    requires Elements(s, b, j, line, pos, acc) == Elements(s, b, e + 1, line', pos', acc + [n])
    requires var st := Elements(s, b, e + 1, line', pos', acc + [n]);
      st.result == Ok(Array(acc + [n] + ToNodes(items[1..]))) && st.next == e + 1 + |RenderItems(items[1..])| + 1
    ensures var st := Elements(s, b, j, line, pos, acc);
      st.result == Ok(Array(acc + ToNodes(items))) && st.next == j + |RenderItems(items)| + 1
  {
    NodesAppend(acc, items);
  }

  /** What holds of all the elements and of those read so far holds of the rest and of one more read. */
  lemma ItemsTail(items: seq<Doc>, acc: seq<Node>, n: Node)
    requires |items| > 1 && (forall k | 0 <= k < |items| :: Writable(items[k])) && AllComplete(acc) && Complete(n)
    ensures forall k | 0 <= k < |items[1..]| :: Writable(items[1..][k])
    ensures AllComplete(acc + [n])
  {
  }

  lemma NodesAppend(acc: seq<Node>, items: seq<Doc>)
    requires |items| > 0
    ensures acc + [ToNode(items[0])] + ToNodes(items[1..]) == acc + ToNodes(items)
    ensures |items| == 1 ==> acc + ToNodes(items) == acc + [ToNode(items[0])]
  {
    var head, tail := ToNode(items[0]), ToNodes(items[1..]);
    assert ToNodes(items) == [head] + tail;
    Concat(acc, [head], tail);
  }

  lemma Concat(a: seq<Node>, c: seq<Node>, d: seq<Node>)
    ensures a + c + d == a + (c + d) && (d == [] ==> c + d == c)
  {
  }

  /** The first element of an array and the delimiter after it: `Elements` either ends or goes on after the comma. */
  lemma ElementsHead(items: seq<Doc>, s: string, b: bool, j: nat, line: Span, pos: Span, acc: seq<Node>)
    returns (n: Node, e: nat, line': Span, pos': Span)
    requires |items| > 0 && (forall k | 0 <= k < |items| :: Writable(items[k])) && AllComplete(acc)
    requires LexerFacts.Occurs(s, j, RenderItems(items) + "]")
    ensures n == ToNode(items[0]) && Complete(n) && e == j + |Render(items[0])| && e < |s|
    ensures |items| == 1 ==> |RenderItems(items)| == |Render(items[0])|
    ensures |items| > 1 ==> |RenderItems(items)| == |Render(items[0])| + 1 + |RenderItems(items[1..])|
    ensures |items| > 1 ==> LexerFacts.Occurs(s, e + 1, RenderItems(items[1..]) + "]")
    ensures Elements(s, b, j, line, pos, acc) ==
      if |items| == 1 then Step(Ok(Array(acc + [n])), e + 1, line', pos')
      else Elements(s, b, e + 1, line', pos', acc + [n])
    decreases items, 0
  {
    var first := Render(items[0]);
    e := j + |first|;
    n := ToNode(items[0]);
    var rest := if |items| == 1 then "" else RenderItems(items[1..]);
    var tail := (if |items| == 1 then "]" else ",") + (rest + if |items| == 1 then "" else "]");
    assert LexerFacts.Occurs(s, j, first) && e < |s| && s[e] == (if |items| == 1 then ']' else ',') &&
           LexerFacts.Occurs(s, e + 1, rest + (if |items| == 1 then "" else "]")) by {
      assert RenderItems(items) + "]" == first + tail;
      OccursSplit(s, j, first, tail);
      OccursSplit(s, e, [tail[0]], tail[1..]);
      assert s[e] == tail[0];
    }
    var v := Value(s, b, j, line, pos);
    assert v.result == Ok(n) && v.next == e by {
      ParsesBack(items[0], s, b, j, line, pos);
    }
    var f := Fetch(s, b, e, v.line, v.pos);
    line', pos' := f.line, f.pos;
    ElementsStep(s, b, v, acc, n, e, |items| == 1);
  }

  /** The members of an object, written out and followed by `}`, are read back and gathered in order. */
  lemma MembersBack(members: seq<Member>, s: string, b: bool, j: nat, line: Span, pos: Span, acc: map<string, Node>)
    requires |members| > 0 && (forall k | 0 <= k < |members| :: Writable(members[k].value)) && AllValuesComplete(acc)
    requires LexerFacts.Occurs(s, j, RenderMembers(members) + "}")
    ensures var st := Members(s, b, j, line, pos, acc);
      st.result == Ok(Object(Gather(acc, members))) && st.next == j + |RenderMembers(members)| + 1
    decreases members, 1
  {
    var n, e, line', pos' := MembersHead(members, s, b, j, line, pos, acc);
    if |members| == 1 {
      GatherStep(acc, members);
    } else {
      MembersTail(members, acc, n);
      MembersBack(members[1..], s, b, e + 1, line', pos', acc[members[0].key := n]);
      MembersJoin(members, Members(s, b, j, line, pos, acc), Members(s, b, e + 1, line', pos', acc[members[0].key := n]), j, acc, n, e);
    }
  }

  /** What holds of all the members and of those gathered so far holds of the rest and of one more gathered. */
  lemma MembersTail(members: seq<Member>, acc: map<string, Node>, n: Node)
    requires |members| > 1 && (forall k | 0 <= k < |members| :: Writable(members[k].value))
    requires AllValuesComplete(acc) && Complete(n)
    ensures forall k | 0 <= k < |members[1..]| :: Writable(members[1..][k].value)
    ensures AllValuesComplete(acc[members[0].key := n])
  {
  }

  /** The first member read up to e and the rest read after its comma make up the whole object. */
  lemma MembersJoin(members: seq<Member>, whole: Step, rest: Step, j: nat, acc: map<string, Node>, n: Node, e: nat)
    requires |members| > 1 && n == ToNode(members[0].value)
    requires |RenderMembers(members)| + j == e + 1 + |RenderMembers(members[1..])|
    requires whole == rest
    requires rest.result == Ok(Object(Gather(acc[members[0].key := n], members[1..]))) &&
      rest.next == e + 1 + |RenderMembers(members[1..])| + 1
    ensures whole.result == Ok(Object(Gather(acc, members))) && whole.next == j + |RenderMembers(members)| + 1
  {
    GatherStep(acc, members);
  }

  lemma GatherStep(acc: map<string, Node>, members: seq<Member>)
    requires |members| > 0
    ensures Gather(acc, members) == Gather(acc[members[0].key := ToNode(members[0].value)], members[1..])
    ensures |members| == 1 ==> Gather(acc, members) == acc[members[0].key := ToNode(members[0].value)]
  {
  }

  /** Where the key, the colon, the value and the delimiter after the first member stand in the text. */
  lemma MembersLayout(members: seq<Member>, s: string, j: nat) returns (q: nat)
    requires |members| > 0
    requires LexerFacts.Occurs(s, j, RenderMembers(members) + "}")
    ensures var m := members[0];
      var e := q + 1 + |Render(m.value)|;
      q == j + |LexerFacts.Quote(m.key)| &&
      LexerFacts.Occurs(s, j, LexerFacts.Quote(m.key)) && s[q] == ':' && LexerFacts.Occurs(s, q + 1, Render(m.value)) &&
      e < |s| && s[e] == (if |members| == 1 then '}' else ',') &&
      (|members| == 1 ==> |RenderMembers(members)| + j == e) &&
      (|members| > 1 ==> |RenderMembers(members)| + j == e + 1 + |RenderMembers(members[1..])| &&
                         LexerFacts.Occurs(s, e + 1, RenderMembers(members[1..]) + "}"))
  {
    var m := members[0];
    var key := LexerFacts.Quote(m.key);
    var value := Render(m.value);
    q := j + |key|;
    var e := q + 1 + |value|;
    if |members| == 1 {
      assert RenderMembers(members) + "}" == key + (":" + (value + "}")) by {
        assert RenderMembers(members) == key + ":" + value;
        Regroup(key, value, "}");
      }
      MemberPieces(s, j, key, value, "}");
    } else {
      var rest := RenderMembers(members[1..]);
      assert RenderMembers(members) + "}" == key + (":" + (value + ("," + (rest + "}")))) by {
        assert RenderMembers(members) == key + ":" + value + "," + rest;
        Regroup(key, value, "," + rest + "}");
        assert key + ":" + value + "," + rest + "}" == key + ":" + value + ("," + rest + "}");
        assert "," + rest + "}" == "," + (rest + "}");
      }
      MemberPieces(s, j, key, value, "," + (rest + "}"));
      assert ("," + (rest + "}"))[1..] == rest + "}";
    }
  }

  lemma Regroup(key: string, value: string, tail: string)
    ensures key + ":" + value + tail == key + (":" + (value + tail))
  {
  }

  /** The pieces of `key:value` followed by a delimiter and more text, each at its place. */
  lemma MemberPieces(s: string, j: nat, key: string, value: string, tail: string)
    requires |tail| > 0 && LexerFacts.Occurs(s, j, key + (":" + (value + tail)))
    ensures var q := j + |key|;
      var e := q + 1 + |value|;
      LexerFacts.Occurs(s, j, key) && q < |s| && s[q] == ':' && LexerFacts.Occurs(s, q + 1, value) &&
      e < |s| && s[e] == tail[0] && LexerFacts.Occurs(s, e + 1, tail[1..])
  {
    var q := j + |key|;
    var e := q + 1 + |value|;
    OccursSplit(s, j, key, ":" + (value + tail));
    OccursSplit(s, q, ":", value + tail);
    OccursSplit(s, q + 1, value, tail);
    OccursSplit(s, e, [tail[0]], tail[1..]);
    assert s[e] == tail[0];
    assert s[q] == ":"[0];
  }

  /** The first member of an object and the delimiter after it: `Members` either ends or goes on after the comma. */
  lemma MembersHead(members: seq<Member>, s: string, b: bool, j: nat, line: Span, pos: Span, acc: map<string, Node>)
    returns (n: Node, e: nat, line': Span, pos': Span)
    requires |members| > 0 && (forall k | 0 <= k < |members| :: Writable(members[k].value)) && AllValuesComplete(acc)
    requires LexerFacts.Occurs(s, j, RenderMembers(members) + "}")
    ensures n == ToNode(members[0].value) && Complete(n) && e < |s|
    ensures e == j + |LexerFacts.Quote(members[0].key)| + 1 + |Render(members[0].value)|
    ensures |members| == 1 ==> |RenderMembers(members)| + j == e
    ensures |members| > 1 ==> |RenderMembers(members)| + j == e + 1 + |RenderMembers(members[1..])|
    ensures |members| > 1 ==> LexerFacts.Occurs(s, e + 1, RenderMembers(members[1..]) + "}")
    ensures Members(s, b, j, line, pos, acc) ==
      if |members| == 1 then Step(Ok(Object(acc[members[0].key := n])), e + 1, line', pos')
      else Members(s, b, e + 1, line', pos', acc[members[0].key := n])
    decreases members, 0
  {
    var m := members[0];
    var q := MembersLayout(members, s, j);
    e := q + 1 + |Render(m.value)|;
    n, line', pos' := MemberRead(m, s, b, j, q, e, line, pos, acc, |members| == 1);
  }

  /** The member m written at j, its `:` at q and its value followed at e by `}` (last) or `,`. */
  lemma MemberRead(m: Member, s: string, b: bool, j: nat, q: nat, e: nat, line: Span, pos: Span,
                   acc: map<string, Node>, last: bool)
    returns (n: Node, line': Span, pos': Span)
    requires Writable(m.value) && AllValuesComplete(acc)
    requires LexerFacts.Occurs(s, j, LexerFacts.Quote(m.key)) && q == j + |LexerFacts.Quote(m.key)|
    requires q < |s| && s[q] == ':' && LexerFacts.Occurs(s, q + 1, Render(m.value))
    requires e == q + 1 + |Render(m.value)| && e < |s| && s[e] == if last then '}' else ','
    ensures n == ToNode(m.value) && Complete(n)
    ensures Members(s, b, j, line, pos, acc) ==
      if last then Step(Ok(Object(acc[m.key := n])), e + 1, line', pos')
      else Members(s, b, e + 1, line', pos', acc[m.key := n])
    decreases m, 0
  {
    n := ToNode(m.value);
    assert Scan(s, b, j) == Tok(Data.String(m.key), j, q - 1, q) by {
      LexerFacts.StringToken(s, b, j, m.key);
    }
    var k := Fetch(s, b, j, line, pos);
    var c := Fetch(s, b, q, k.line, k.pos);
    assert c.next == q + 1 by {
      FetchDelimiter(s, b, q, k.line, k.pos);
    }
    assert Value(s, b, c.next, c.line, c.pos).result == Ok(n) && Value(s, b, c.next, c.line, c.pos).next == e by {
      ParsesBack(m.value, s, b, c.next, c.line, c.pos);
    }
    line', pos' := MemberFollowed(s, b, j, q, e, line, pos, acc, m.key, n, last, k, c);
  }

  /** A key token at j fetched as k, `:` at q fetched as c, a value read up to e, and `}` or `,` at e. */
  lemma MemberFollowed(s: string, b: bool, j: nat, q: nat, e: nat, line: Span, pos: Span,
                       acc: map<string, Node>, key: string, n: Node, last: bool, k: Fetched, c: Fetched)
    returns (line': Span, pos': Span)
    requires j < q < e < |s| && AllValuesComplete(acc) && Complete(n)
    requires Scan(s, b, j) == Tok(Data.String(key), j, q - 1, q) && s[q] == ':'
    requires k == Fetch(s, b, j, line, pos) && c == Fetch(s, b, q, k.line, k.pos)
    requires c.next <= |s| && Value(s, b, c.next, c.line, c.pos).result == Ok(n) && Value(s, b, c.next, c.line, c.pos).next == e
    requires s[e] == if last then '}' else ','
    ensures Members(s, b, j, line, pos, acc) ==
      if last then Step(Ok(Object(acc[key := n])), e + 1, line', pos')
      else Members(s, b, e + 1, line', pos', acc[key := n])
  {
    var v := Value(s, b, c.next, c.line, c.pos);
    MembersOpen(s, b, j, line, pos, acc, key, q, k, c);
    var f := Fetch(s, b, e, v.line, v.pos);
    line', pos' := f.line, f.pos;
    MembersStep(s, b, v, key, acc, n, e, last);
  }

  /**
   * A document followed only by whitespace, in a source that does not fail:
   * the first parse gives the document's tree, and the next one `EOF`.
   */
  lemma DocumentThenEof(d: Doc, w: string, line: Span, pos: Span)
    requires Writable(d) && forall k | 0 <= k < |w| :: w[k] == ' ' || w[k] == '\t' || w[k] == '\n' || w[k] == '\r'
    ensures var s := Render(d) + w;
      var st := Value(s, false, 0, line, pos);
      st.result == Ok(ToNode(d)) && st.next == |Render(d)| &&
      Value(s, false, st.next, st.line, st.pos).result == Ok(Node.EOF)
  {
    var s := Render(d) + w;
    assert LexerFacts.Occurs(s, 0, Render(d));
    if |w| > 0 {
      assert s[|Render(d)|] == w[0];
    }
    ParsesBack(d, s, false, 0, line, pos);
    assert LexerFacts.AllSkipped(s, |Render(d)|, |s|) by {
      forall k | |Render(d)| <= k < |s| ensures IsSkipped(s[k]) {
        assert s[k] == w[k - |Render(d)|];
      }
    }
    LexerFacts.SkippedStretch(s, false, |Render(d)|, |s|);
  }
}
