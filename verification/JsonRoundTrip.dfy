/** The decoder recovers exactly the trees whose keys and literals are escape-free. */
module JsonRoundTrip {
  import opened Options
  import opened GoQuote
  import opened JsonPrinter

  lemma ExpectSkips(prefix: string, rest: string)
    ensures Expect(prefix + rest, prefix) == Some(rest)
  {
    assert prefix <= prefix + rest && (prefix + rest)[|prefix|..] == rest;
  }

  lemma UpToEscapeReads(n: string, rest: string)
    requires ESC !in n && (rest == "" || rest[0] == ESC)
    ensures UpToEscape(n + rest) == (n, rest)
  {
    var s := n + rest;
    assert forall i :: 0 <= i < |n| ==> s[i] == n[i] && n[i] in n;
    assert rest != "" ==> s[|n|] == rest[0];
    assert FirstEscape(s) == |n|;
    assert s[..|n|] == n && s[|n|..] == rest;
  }

  // ---------- Leaves ----------

  lemma TextReads(text: string, indent: string, graphic: char -> bool, rest: string)
    requires |indent| >= 2
    ensures DecodeValue(Print(Text(text), indent, graphic) + rest, indent) == Some((Text(text), rest))
  {
    var body := QuoteBody(text, graphic) + "\"" + (RESET + rest);
    var s := Print(Text(text), indent, graphic) + rest;
    assert s == (GREEN + "\"") + body;
    ExpectSkips(GREEN + "\"", body);
    UnquoteReads(text, graphic, RESET + rest);
    ExpectSkips(RESET, rest);
    assert DecodeText(s) == Some((Text(text), rest));
    assert LeadOf(s) == AText;
  }

  lemma NumberReads(n: string, indent: string, graphic: char -> bool, rest: string)
    requires |indent| >= 2 && ESC !in n
    ensures DecodeValue(Print(Number(n), indent, graphic) + rest, indent) == Some((Number(n), rest))
  {
    var s := Print(Number(n), indent, graphic) + rest;
    var tail := RESET + rest;
    assert s == MAGENTA + (n + tail);
    ExpectSkips(MAGENTA, n + tail);
    UpToEscapeReads(n, tail);
    ExpectSkips(RESET, rest);
    assert DecodeNumber(s) == Some((Number(n), rest));
    assert LeadOf(s) == ANumber;
  }

  function Token(t: Json): string
    requires t in {Object(map[]), Array([]), Bool(true), Bool(false), Null}
  {
    match t
    case Object(_) => GRAY + "{}" + RESET
    case Array(_) => GRAY + "[]" + RESET
    case Bool(b) => if b then YELLOW + "true" + RESET else YELLOW + "false" + RESET
    case Null => GRAY + "null" + RESET
  }

  lemma TokenReads(t: Json, indent: string, graphic: char -> bool, rest: string)
    requires |indent| >= 2 && t in {Object(map[]), Array([]), Bool(true), Bool(false), Null}
    ensures DecodeValue(Print(t, indent, graphic) + rest, indent) == Some((t, rest))
  {
    var s := Token(t) + rest;
    assert Print(t, indent, graphic) == Token(t);
    ExpectSkips(Token(t), rest);
    assert DecodeToken(s, Token(t), t) == Some((t, rest));
    assert s[..|Token(t)|] == Token(t);
  }

  // ---------- Containers ----------

  lemma RegroupFour(a: string, b: string, c: string, d: string)
    ensures a + b + c + d == a + (b + (c + d))
  {
  }

  lemma LeadOfOpening(bracket: string, inside: string)
    requires bracket == "{" || bracket == "["
    ensures LeadOf(GRAY + bracket + RESET + inside) == if bracket == "{" then SomeObject else SomeArray
  {
    var s := GRAY + bracket + RESET + inside;
    assert s[2] == '9' && s[5] == bracket[0] && s[6] == ESC;
  }

  // Given how its members are read, a non-empty object is read.
  lemma ObjectReads(m: map<string, Json>, body: string, indent: string, rest: string)
    requires |indent| >= 2
    requires DecodeMembers(body + (Close("}", indent) + rest), indent) == Some((m, Close("}", indent) + rest))
    ensures DecodeValue(GRAY + "{" + RESET + body + Close("}", indent) + rest, indent) == Some((Object(m), rest))
  {
    var inside := body + (Close("}", indent) + rest);
    RegroupFour(GRAY + "{" + RESET, body, Close("}", indent), rest);
    LeadOfOpening("{", inside);
    ExpectSkips(GRAY + "{" + RESET, inside);
    ExpectSkips(Close("}", indent), rest);
  }

  lemma ArrayReads(items: seq<Json>, body: string, indent: string, rest: string)
    requires |indent| >= 2
    requires DecodeItems(body + (Close("]", indent) + rest), indent) == Some((items, Close("]", indent) + rest))
    ensures DecodeValue(GRAY + "[" + RESET + body + Close("]", indent) + rest, indent) == Some((Array(items), rest))
  {
    var inside := body + (Close("]", indent) + rest);
    RegroupFour(GRAY + "[" + RESET, body, Close("]", indent), rest);
    LeadOfOpening("[", inside);
    ExpectSkips(GRAY + "[" + RESET, inside);
    ExpectSkips(Close("]", indent), rest);
  }

  // A member's key is read, and its value is next.
  lemma KeyReads(k: string, indent: string, rest: string)
    requires |indent| >= 2 && ESC !in k
    ensures DecodeMembers(KeyText(k, indent) + rest, indent) ==
      match DecodeValue(rest, indent + "  ")
      case None => None
      case Some((v, after)) =>
        if COMMA <= after then
          match DecodeMembers(after[|COMMA|..], indent)
          case None => None
          case Some((m, end)) => Some((m[k := v], end))
        else Some((map[k := v], after))
  {
    RegroupFour(KeyLead(indent), k, MARK, rest);
    ExpectSkips(KeyLead(indent), k + (MARK + rest));
    UpToEscapeReads(k, MARK + rest);
    ExpectSkips(MARK, rest);
  }

  // ---------- The tree ----------

  predicate NoComma(rest: string) {
    !(COMMA <= rest)
  }

  lemma CloseIsNoComma(bracket: string, indent: string, rest: string)
    requires |indent| >= 2
    ensures NoComma(Close(bracket, indent) + rest)
  {
    assert (Close(bracket, indent) + rest)[0] == '\n' && COMMA[0] == ESC;
  }

  lemma {:induction false} ValueReads(t: Json, indent: string, graphic: char -> bool, rest: string)
    requires |indent| >= 2 && EscapeFree(t)
    ensures DecodeValue(Print(t, indent, graphic) + rest, indent) == Some((t, rest))
    decreases t, 2
  {
    match t
    case Object(m) =>
      if m == map[] { TokenReads(t, indent, graphic, rest); } else { ObjectValueReads(t, indent, graphic, rest); }
    case Array(items) =>
      if items == [] {
        TokenReads(t, indent, graphic, rest);
      } else {
        var body := PrintItems(items, indent, graphic);
        CloseIsNoComma("]", indent, rest);
        ItemsRead(items, indent, graphic, Close("]", indent) + rest);
        ArrayReads(items, body, indent, rest);
      }
    case Text(s) => TextReads(s, indent, graphic, rest);
    case Number(n) => NumberReads(n, indent, graphic, rest);
    case Bool(b) => TokenReads(t, indent, graphic, rest);
    case Null => TokenReads(t, indent, graphic, rest);
  }

  lemma {:induction false} ObjectValueReads(t: Json, indent: string, graphic: char -> bool, rest: string)
    requires |indent| >= 2 && EscapeFree(t) && t.Object? && t.members != map[]
    ensures DecodeValue(Print(t, indent, graphic) + rest, indent) == Some((t, rest))
    decreases t, 1
  {
    var m := t.members;
    var keys := SortedKeys(m.Keys);
    var body := PrintMembers(t, keys, indent, graphic);
    CloseIsNoComma("}", indent, rest);
    assert keys != [] by { var k :| k in m; assert k in keys; }
    MembersRead(t, keys, indent, graphic, Close("}", indent) + rest);
    AllKeys(m, keys);
    ObjectReads(m, body, indent, rest);
  }

  lemma AllKeys(m: map<string, Json>, keys: seq<string>)
    requires forall k :: k in keys <==> k in m
    ensures (map k | k in keys :: m[k]) == m
  {
  }

  lemma {:induction false} MembersRead(t: Json, keys: seq<string>, indent: string, graphic: char -> bool, rest: string)
    requires |indent| >= 2 && t.Object? && EscapeFree(t) && NoComma(rest)
    requires keys != [] && (forall k :: k in keys ==> k in t.members)
    requires forall i, j :: 0 <= i < j < |keys| ==> keys[i] != keys[j]
    ensures DecodeMembers(PrintMembers(t, keys, indent, graphic) + rest, indent)
         == Some((map k | k in keys :: t.members[k], rest))
    decreases t, 0, |keys|
  {
    var k := keys[0];
    var v := t.members[k];
    var value := Print(v, indent + "  ", graphic);
    MembersText(t, keys, indent, graphic, rest);
    MembersMap(t.members, keys);
    if |keys| == 1 {
      KeyReads(k, indent, value + rest);
      ValueReads(v, indent + "  ", graphic, rest);
    } else {
      var tail := PrintMembers(t, keys[1..], indent, graphic) + rest;
      KeyReads(k, indent, value + (COMMA + tail));
      ValueReads(v, indent + "  ", graphic, COMMA + tail);
      CommaReads(tail);
      MembersRead(t, keys[1..], indent, graphic, rest);
    }
  }

  lemma MembersText(t: Json, keys: seq<string>, indent: string, graphic: char -> bool, rest: string)
    requires |indent| >= 2 && t.Object? && keys != [] && (forall k :: k in keys ==> k in t.members)
    ensures var value := Print(t.members[keys[0]], indent + "  ", graphic);
      PrintMembers(t, keys, indent, graphic) + rest == KeyText(keys[0], indent) + (value +
        if |keys| == 1 then rest else COMMA + (PrintMembers(t, keys[1..], indent, graphic) + rest))
  {
    var key, value := KeyText(keys[0], indent), Print(t.members[keys[0]], indent + "  ", graphic);
    if |keys| == 1 {
      Regroup(key, value, "", "", rest);
      assert "" + "" == "" && "" + ("" + rest) == rest;
    } else {
      var more := PrintMembers(t, keys[1..], indent, graphic);
      Regroup(key, value, COMMA, more, rest);
    }
  }

  lemma Regroup(a: string, b: string, c: string, d: string, e: string)
    ensures a + b + (c + d) + e == a + (b + (c + (d + e)))
  {
  }

  lemma MembersMap(m: map<string, Json>, keys: seq<string>)
    requires keys != [] && (forall k :: k in keys ==> k in m)
    ensures (map k | k in keys :: m[k]) == (map j | j in keys[1..] :: m[j])[keys[0] := m[keys[0]]]
    ensures |keys| == 1 ==> (map k | k in keys :: m[k]) == map[keys[0] := m[keys[0]]]
  {
  }

  lemma CommaReads(tail: string)
    ensures COMMA <= COMMA + tail && (COMMA + tail)[|COMMA|..] == tail
  {
  }

  lemma ItemsText(items: seq<Json>, indent: string, graphic: char -> bool, rest: string)
    requires |indent| >= 2 && items != []
    ensures var value := Print(items[0], indent + "  ", graphic);
      PrintItems(items, indent, graphic) + rest == "\n" + indent + (value +
        if |items| == 1 then rest else COMMA + (PrintItems(items[1..], indent, graphic) + rest))
  {
    var line, value := "\n" + indent, Print(items[0], indent + "  ", graphic);
    if |items| == 1 {
      Regroup(line, value, "", "", rest);
      assert "" + "" == "" && "" + ("" + rest) == rest;
    } else {
      Regroup(line, value, COMMA, PrintItems(items[1..], indent, graphic), rest);
    }
  }

  // An item's line is opened, and its value is next.
  lemma LineReads(indent: string, rest: string)
    requires |indent| >= 2
    ensures DecodeItems("\n" + indent + rest, indent) ==
      match DecodeValue(rest, indent + "  ")
      case None => None
      case Some((v, after)) =>
        if COMMA <= after then
          match DecodeItems(after[|COMMA|..], indent)
          case None => None
          case Some((items, end)) => Some(([v] + items, end))
        else Some(([v], after))
  {
    ExpectSkips("\n" + indent, rest);
  }

  lemma {:induction false} ItemsRead(items: seq<Json>, indent: string, graphic: char -> bool, rest: string)
    requires |indent| >= 2 && items != [] && NoComma(rest)
    requires forall i :: 0 <= i < |items| ==> EscapeFree(items[i])
    ensures DecodeItems(PrintItems(items, indent, graphic) + rest, indent) == Some((items, rest))
    decreases items, 0, |items|
  {
    var value := Print(items[0], indent + "  ", graphic);
    ItemsText(items, indent, graphic, rest);
    if |items| == 1 {
      LineReads(indent, value + rest);
      ValueReads(items[0], indent + "  ", graphic, rest);
      assert items == [items[0]];
    } else {
      var tail := PrintItems(items[1..], indent, graphic) + rest;
      LineReads(indent, value + (COMMA + tail));
      ValueReads(items[0], indent + "  ", graphic, COMMA + tail);
      CommaReads(tail);
      ItemsRead(items[1..], indent, graphic, rest);
      assert [items[0]] + items[1..] == items;
    }
  }

  // ---------- Results ----------

  // Whatever is decoded has escape-free keys and literals.
  lemma {:induction false} DecodedIsEscapeFree(s: string, indent: string)
    requires |indent| >= 2
    ensures var r := DecodeValue(s, indent); r.Some? ==> EscapeFree(r.value.0)
    decreases |s|, 1
  {
    match LeadOf(s)
    case SomeObject =>
      var s1 := Expect(s, GRAY + "{" + RESET);
      if s1.Some? { DecodedMembers(s1.value, indent); }
    case SomeArray =>
      var s1 := Expect(s, GRAY + "[" + RESET);
      if s1.Some? { DecodedItems(s1.value, indent); }
    case _ =>
  }

  lemma {:induction false} DecodedMembers(s: string, indent: string)
    requires |indent| >= 2
    ensures var r := DecodeMembers(s, indent); r.Some? ==> EscapeFree(Object(r.value.0))
    decreases |s|, 0
  {
    if DecodeMembers(s, indent).Some? {
      var s1 := Expect(s, KeyLead(indent)).value;
      var key := UpToEscape(s1);
      assert |key.0| + |key.1| == |s1|;
      var s2 := Expect(key.1, MARK).value;
      DecodedIsEscapeFree(s2, indent + "  ");
      var v := DecodeValue(s2, indent + "  ").value;
      if COMMA <= v.1 {
        DecodedMembers(v.1[|COMMA|..], indent);
      }
    }
  }

  lemma {:induction false} DecodedItems(s: string, indent: string)
    requires |indent| >= 2
    ensures var r := DecodeItems(s, indent); r.Some? ==> EscapeFree(Array(r.value.0))
    decreases |s|, 0
  {
    if DecodeItems(s, indent).Some? {
      var s1 := Expect(s, "\n" + indent).value;
      DecodedIsEscapeFree(s1, indent + "  ");
      var v := DecodeValue(s1, indent + "  ").value;
      if COMMA <= v.1 {
        DecodedItems(v.1[|COMMA|..], indent);
      }
    }
  }

  // At every starting indent, the output is decoded to the tree exactly when no
  // key and no number literal contains an escape character.
  lemma RoundTripIff(t: Json, indent: string, graphic: char -> bool)
    requires |indent| >= 2
    ensures Decode(Print(t, indent, graphic), indent) == Some(t) <==> EscapeFree(t)
  {
    var s := Print(t, indent, graphic);
    assert s + "" == s;
    if EscapeFree(t) {
      ValueReads(t, indent, graphic, "");
    }
    DecodedIsEscapeFree(s, indent);
  }

  // So the printer is injective on such trees, whatever characters count as printable.
  lemma PrinterIsInjective(t: Json, u: Json, indent: string, graphic: char -> bool)
    requires |indent| >= 2 && EscapeFree(t) && EscapeFree(u)
    requires Print(t, indent, graphic) == Print(u, indent, graphic)
    ensures t == u
  {
    RoundTripIff(t, indent, graphic);
    RoundTripIff(u, indent, graphic);
  }

  // A key that spells out the end of a member and the start of the next one.
  function ForgedKey(indent: string): string {
    "a" + MARK + (GRAY + "null" + RESET) + COMMA + KeyLead(indent) + "b"
  }

  // With escape characters in keys two different trees print alike, so no decoder could tell them apart.
  lemma EscapesInKeysCollide(indent: string, graphic: char -> bool)
    requires |indent| >= 2
    ensures var one, two := Object(map[ForgedKey(indent) := Null]), Object(map["a" := Null, "b" := Null]);
      one != two && Print(one, indent, graphic) == Print(two, indent, graphic)
  {
    var k := ForgedKey(indent);
    var one, two := Object(map[k := Null]), Object(map["a" := Null, "b" := Null]);
    assert one.members.Keys == {k} && two.members.Keys == {"a", "b"};
    assert "a" in two.members && "b" in two.members;
    assert "a" !in one.members by { assert |k| > 1; }
    OneKey(k);
    TwoKeys();
    assert PrintMembers(one, [k], indent, graphic) == PrintMembers(two, ["a", "b"], indent, graphic) by {
      var value := GRAY + "null" + RESET;
      assert ["a", "b"][1..] == ["b"];
      assert PrintMembers(two, ["b"], indent, graphic) == KeyText("b", indent) + value;
      assert PrintMembers(one, [k], indent, graphic) == KeyText(k, indent) + value;
      ForgedText(indent, value);
    }
  }

  lemma ForgedText(indent: string, value: string)
    requires value == GRAY + "null" + RESET
    ensures KeyText(ForgedKey(indent), indent) + value
         == KeyText("a", indent) + value + (COMMA + (KeyText("b", indent) + value))
  {
    RegroupForged(KeyLead(indent), "a", MARK, value, COMMA, "b");
  }

  lemma RegroupForged(o: string, a: string, m: string, v: string, c: string, b: string)
    ensures o + (a + m + v + c + o + b) + m + v == o + a + m + v + (c + (o + b + m + v))
  {
    var left := o + a + m + v;
    assert o + (a + m + v + c + o + b) == left + (c + o + b);
    var right := o + b + m + v;
    assert c + o + b + (m + v) == c + right;
  }

  lemma OneKey(k: string)
    ensures SortedKeys({k}) == [k]
  {
    var r := SortedKeys({k});
    assert |r| == 1 && r[0] in r;
  }

  lemma TwoKeys()
    ensures SortedKeys({"a", "b"}) == ["a", "b"]
  {
    var r := SortedKeys({"a", "b"});
    assert {"a", "b"} == {"a"} + {"b"} && |r| == 2;
    assert r[0] in r && r[1] in r;
    assert !Leq("b", "a");
  }

  // ---------- The text, for one tree ----------

  // {"k": [1, "a b"], "z": null}, as the console prints it.
  lemma PrintedText(graphic: char -> bool)
    ensures var e: string := ['\U{1b}'];
      Print(Object(map["k" := Array([Number("1"), Text("a b")]), "z" := Null]), "  ", graphic)
      == e + "[90m{" + e + "[0m"
       + (PrintedKey("k")
          + (e + "[90m[" + e + "[0m"
             + ("\n    " + (e + "[35m1" + e + "[0m") + (e + "[90m," + e + "[0m"
               + ("\n    " + (e + "[32m\"a b\"" + e + "[0m"))))
             + ("\n  " + e + "[90m]" + e + "[0m"))
          + (e + "[90m," + e + "[0m"
            + (PrintedKey("z") + (e + "[90mnull" + e + "[0m"))))
       + ("\n" + e + "[90m}" + e + "[0m")
  {
    var inner := Array([Number("1"), Text("a b")]);
    var t := Object(map["k" := inner, "z" := Null]);
    assert t.members.Keys == {"k", "z"} && t.members["k"] == inner && t.members["z"] == Null;
    TwoKeysInOrder("k", "z");
    TwoMembers(t, graphic);
    InnerText(graphic);
    KeyIs("k");
    KeyIs("z");
    PiecesText();
  }

  // A key on the first level.
  function PrintedKey(k: string): string {
    var e: string := ['\U{1b}'];
    "\n  " + e + "[1m" + e + "[34m" + k + e + "[0m" + e + "[90m:" + e + "[0m "
  }

  lemma TwoMembers(t: Json, graphic: char -> bool)
    requires t.Object? && "k" in t.members && "z" in t.members && t.members["z"] == Null && SortedKeys(t.members.Keys) == ["k", "z"]
    ensures Print(t, "  ", graphic)
         == GRAY + "{" + RESET
          + (KeyText("k", "  ") + Print(t.members["k"], "    ", graphic)
             + (COMMA + (KeyText("z", "  ") + (GRAY + "null" + RESET))))
          + Close("}", "  ")
  {
    assert ["k", "z"][1..] == ["z"] && "  " + "  " == "    ";
    assert PrintMembers(t, ["z"], "  ", graphic) == KeyText("z", "  ") + (GRAY + "null" + RESET);
  }

  lemma PiecesText()
    ensures var e: string := ['\U{1b}'];
      && GRAY + "{" + RESET == e + "[90m{" + e + "[0m" && GRAY + "[" + RESET == e + "[90m[" + e + "[0m"
      && Close("}", "  ") == "\n" + e + "[90m}" + e + "[0m" && Close("]", "    ") == "\n  " + e + "[90m]" + e + "[0m"
      && COMMA == e + "[90m," + e + "[0m" && GRAY + "null" + RESET == e + "[90mnull" + e + "[0m"
  {
    assert Outdent("  ") == "" && Outdent("    ") == "  ";
  }

  lemma KeyIs(k: string)
    ensures KeyText(k, "  ") == PrintedKey(k)
  {
  }

  lemma InnerText(graphic: char -> bool)
    ensures var e: string := ['\U{1b}'];
      Print(Array([Number("1"), Text("a b")]), "    ", graphic)
      == e + "[90m[" + e + "[0m"
         + ("\n    " + (e + "[35m1" + e + "[0m") + (e + "[90m," + e + "[0m"
           + ("\n    " + (e + "[32m\"a b\"" + e + "[0m"))))
         + ("\n  " + e + "[90m]" + e + "[0m")
  {
    var items := [Number("1"), Text("a b")];
    TwoItems(items, graphic);
    NumberText();
    StringText(graphic);
    PiecesText();
    ArrayText(items, graphic);
  }

  lemma ArrayText(items: seq<Json>, graphic: char -> bool)
    requires items != []
    ensures Print(Array(items), "    ", graphic) == GRAY + "[" + RESET + PrintItems(items, "    ", graphic) + Close("]", "    ")
  {
  }

  lemma NumberText()
    ensures var e: string := ['\U{1b}']; MAGENTA + "1" + RESET == e + "[35m1" + e + "[0m"
  {
  }

  lemma StringText(graphic: char -> bool)
    ensures var e: string := ['\U{1b}']; GREEN + Quote("a b", graphic) + RESET == e + "[32m\"a b\"" + e + "[0m"
  {
    PlainIsItself("a b", graphic);
    assert ['"'] + "a b" + ['"'] == "\"a b\"";
    assert "[32m" + "\"a b\"" == "[32m\"a b\"";
  }

  lemma TwoItems(items: seq<Json>, graphic: char -> bool)
    requires items == [Number("1"), Text("a b")]
    ensures PrintItems(items, "    ", graphic)
         == "\n    " + (MAGENTA + "1" + RESET) + (COMMA + ("\n    " + (GREEN + Quote("a b", graphic) + RESET)))
  {
    assert items[1..] == [Text("a b")];
    assert "\n" + "    " == "\n    ";
    assert PrintItems(items[1..], "    ", graphic) == "\n    " + (GREEN + Quote("a b", graphic) + RESET) + "";
  }

  lemma TwoKeysInOrder(a: string, b: string)
    requires a != b && !Leq(b, a)
    ensures SortedKeys({a, b}) == [a, b]
  {
    var r := SortedKeys({a, b});
    assert {a, b} == {a} + {b} && |r| == 2;
    assert r[0] in r && r[1] in r;
  }
}
