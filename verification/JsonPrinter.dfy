/**
 The coloured, indented JSON printer of the console, and a character-level
 decoder that recovers the tree from its output.
 */
module JsonPrinter {
  import opened Options
  import opened GoQuote

  // What decoding with json.Number yields.
  datatype Json =
    | Object(members: map<string, Json>)
    | Array(items: seq<Json>)
    | Text(text: string)
    | Number(literal: string)
    | Bool(value: bool)
    | Null

  const ESC: char := '\U{1b}'
  const RESET: string := [ESC] + "[0m"
  const GREEN: string := [ESC] + "[32m"
  const YELLOW: string := [ESC] + "[33m"
  const BLUE: string := [ESC] + "[34m"
  const MAGENTA: string := [ESC] + "[35m"
  const GRAY: string := [ESC] + "[90m"
  const BOLD: string := [ESC] + "[1m"

  // ---------- Keys in sorted order ----------

  // String order by character, as sort.Strings compares UTF-8.
  predicate Leq(a: string, b: string) {
    a == "" || (b != "" && (a[0] < b[0] || (a[0] == b[0] && Leq(a[1..], b[1..]))))
  }

  ghost predicate DiffersAt(a: string, b: string, i: nat) {
    i < |a| && i < |b| && a[..i] == b[..i] && a[i] < b[i]
  }

  ghost predicate DiffersBelow(a: string, b: string) {
    exists i: nat :: DiffersAt(a, b, i)
  }

  lemma DiffersLater(a: string, b: string, i: nat)
    requires a != "" && b != "" && a[0] == b[0]
    ensures DiffersAt(a, b, i + 1) <==> DiffersAt(a[1..], b[1..], i)
    ensures !DiffersAt(a, b, 0)
  {
    if i < |a[1..]| && i < |b[1..]| {
      assert a[..i + 1] == [a[0]] + a[1..][..i] && b[..i + 1] == [b[0]] + b[1..][..i];
      assert a[..i + 1][1..] == a[1..][..i] && b[..i + 1][1..] == b[1..][..i];
    }
  }

  lemma DiffersRest(a: string, b: string)
    requires a != "" && b != "" && a[0] == b[0]
    ensures DiffersBelow(a, b) <==> DiffersBelow(a[1..], b[1..])
  {
    if i: nat :| DiffersAt(a, b, i) {
      DiffersLater(a, b, 0);
      DiffersLater(a, b, i - 1);
    }
    if i: nat :| DiffersAt(a[1..], b[1..], i) { DiffersLater(a, b, i); }
  }

  lemma DiffersFirst(a: string, b: string)
    requires a != "" && b != "" && a[0] != b[0]
    ensures DiffersBelow(a, b) <==> a[0] < b[0]
  {
    assert a[..0] == b[..0];
    assert DiffersAt(a, b, 0) <==> a[0] < b[0];
    forall i: nat | i > 0 ensures !DiffersAt(a, b, i) {
      if i < |a| && i < |b| { assert a[..i][0] == a[0] && b[..i][0] == b[0]; }
    }
  }

  // The first character that differs decides; a prefix comes before what it is a prefix of.
  lemma {:induction false} LeqIff(a: string, b: string)
    ensures Leq(a, b) <==> a <= b || DiffersBelow(a, b)
  {
    if a != "" && b != "" {
      if a[0] == b[0] {
        LeqIff(a[1..], b[1..]);
        DiffersRest(a, b);
        assert a == [a[0]] + a[1..] && b == [b[0]] + b[1..];
      } else {
        DiffersFirst(a, b);
      }
    }
  }

  lemma {:induction false} LeqTotal(a: string, b: string)
    ensures Leq(a, b) || Leq(b, a)
    ensures Leq(a, b) && Leq(b, a) ==> a == b
  {
    if a != "" && b != "" && a[0] == b[0] {
      LeqTotal(a[1..], b[1..]);
      assert a == [a[0]] + a[1..] && b == [b[0]] + b[1..];
    }
  }

  lemma {:induction false} LeqTransitive(a: string, b: string, c: string)
    requires Leq(a, b) && Leq(b, c)
    ensures Leq(a, c)
  {
    if a != "" && a[0] == b[0] == c[0] {
      LeqTransitive(a[1..], b[1..], c[1..]);
    }
  }

  predicate IsLeast(k: string, ks: set<string>) {
    k in ks && forall j :: j in ks ==> Leq(k, j)
  }

  lemma {:induction false} LeastExists(ks: set<string>) returns (k: string)
    requires ks != {}
    ensures IsLeast(k, ks)
  {
    var x :| x in ks;
    if ks == {x} {
      LeqTotal(x, x);
      k := x;
    } else {
      var rest := ks - {x};
      assert rest != {};
      var y := LeastExists(rest);
      LeqTotal(x, y);
      if Leq(x, y) {
        k := x;
        LeqTotal(x, x);
        forall j | j in ks ensures Leq(x, j) {
          if j != x { LeqTransitive(x, y, j); }
        }
      } else {
        k := y;
      }
    }
  }

  lemma LeastIsUnique(ks: set<string>)
    ensures forall j, k :: IsLeast(j, ks) && IsLeast(k, ks) ==> j == k
  {
    forall j, k | IsLeast(j, ks) && IsLeast(k, ks) ensures j == k {
      LeqTotal(j, k);
    }
  }

  // sort.Strings on the keys collected from the map.
  function SortedKeys(ks: set<string>): (r: seq<string>)
    ensures |r| == |ks| && forall k :: k in r <==> k in ks
    ensures forall i, j :: 0 <= i < j < |r| ==> r[i] != r[j] && Leq(r[i], r[j])
  {
    if ks == {} then []
    else
      assert exists k :: IsLeast(k, ks) by { var k := LeastExists(ks); }
      LeastIsUnique(ks);
      var k :| IsLeast(k, ks);
      [k] + SortedKeys(ks - {k})
  }

  // ---------- The printer ----------

  // The slice panics on a shorter indent; the console starts with two blanks.
  function Outdent(indent: string): string
    requires |indent| >= 2
  {
    indent[..|indent| - 2]
  }

  function Close(bracket: string, indent: string): string
    requires |indent| >= 2
  {
    "\n" + Outdent(indent) + GRAY + bracket + RESET
  }

  function KeyText(k: string, indent: string): string {
    KeyLead(indent) + k + MARK
  }

  function KeyLead(indent: string): string {
    "\n" + indent + BOLD + BLUE
  }

  const MARK: string := RESET + GRAY + ":" + RESET + " "

  const COMMA: string := GRAY + "," + RESET

  function Print(t: Json, indent: string, graphic: char -> bool): string
    requires |indent| >= 2
    decreases t, 1
  {
    match t
    case Object(m) =>
      if m == map[] then GRAY + "{}" + RESET
      else GRAY + "{" + RESET + PrintMembers(t, SortedKeys(m.Keys), indent, graphic) + Close("}", indent)
    case Array(items) =>
      if items == [] then GRAY + "[]" + RESET
      else GRAY + "[" + RESET + PrintItems(items, indent, graphic) + Close("]", indent)
    case Text(s) => GREEN + Quote(s, graphic) + RESET
    case Number(n) => MAGENTA + n + RESET
    case Bool(b) => YELLOW + (if b then "true" else "false") + RESET
    case Null => GRAY + "null" + RESET
  }

  function PrintMembers(t: Json, keys: seq<string>, indent: string, graphic: char -> bool): string
    requires |indent| >= 2 && t.Object? && forall k :: k in keys ==> k in t.members
    decreases t, 0, |keys|
  {
    if keys == [] then ""
    else
      KeyText(keys[0], indent) + Print(t.members[keys[0]], indent + "  ", graphic)
      + (if |keys| == 1 then "" else COMMA + PrintMembers(t, keys[1..], indent, graphic))
  }

  function PrintItems(items: seq<Json>, indent: string, graphic: char -> bool): string
    requires |indent| >= 2
    decreases items, 0, |items|
  {
    if items == [] then ""
    else
      "\n" + indent + Print(items[0], indent + "  ", graphic)
      + (if |items| == 1 then "" else COMMA + PrintItems(items[1..], indent, graphic))
  }

  // ---------- The decoder ----------

  function Expect(s: string, prefix: string): (r: Option<string>)
    ensures r.Some? ==> |r.value| == |s| - |prefix|
  {
    if prefix <= s then Some(s[|prefix|..]) else None
  }

  // The text up to the next escape character.
  function UpToEscape(s: string): (r: (string, string))
    ensures r.0 + r.1 == s && ESC !in r.0
  {
    var k := FirstEscape(s);
    (s[..k], s[k..])
  }

  // The index of the first escape character, or the length of the text.
  function FirstEscape(s: string): (k: nat)
    ensures k <= |s| && (k < |s| ==> s[k] == ESC) && forall i :: 0 <= i < k ==> s[i] != ESC
  {
    if s == "" || s[0] == ESC then 0
    else
      var k := FirstEscape(s[1..]);
      assert forall i :: 0 < i < |s| ==> s[i] == s[1..][i - 1];
      k + 1
  }

  datatype Lead = EmptyObject | SomeObject | EmptyArray | SomeArray | AText | ANumber | ATrue | AFalse | ANull

  // What begins here: the digits of the colour code and the character after it tell.
  function LeadOf(s: string): Lead {
    if |s| < 7 then ANull
    else if s[2] == '9' then
      if s[5] == '{' then (if s[6] == '}' then EmptyObject else SomeObject)
      else if s[5] == '[' then (if s[6] == ']' then EmptyArray else SomeArray)
      else ANull
    else if s[3] == '2' then AText
    else if s[3] == '5' then ANumber
    else if s[5] == 't' then ATrue
    else AFalse
  }

  // A token that is printed one way only.
  function DecodeToken(s: string, token: string, t: Json): (r: Option<(Json, string)>)
    ensures r.Some? ==> |r.value.1| == |s| - |token|
  {
    var rest :- Expect(s, token);
    Some((t, rest))
  }

  function DecodeText(s: string): (r: Option<(Json, string)>)
    ensures r.Some? ==> |r.value.1| < |s|
  {
    var s1 :- Expect(s, GREEN + "\"");
    var text :- UnquoteBody(s1);
    var rest :- Expect(text.1, RESET);
    Some((Text(text.0), rest))
  }

  function DecodeNumber(s: string): (r: Option<(Json, string)>)
    ensures r.Some? ==> |r.value.1| < |s|
  {
    var s1 :- Expect(s, MAGENTA);
    var n := UpToEscape(s1);
    assert |n.0| + |n.1| == |s1|;
    var rest :- Expect(n.1, RESET);
    Some((Number(n.0), rest))
  }

  // A value at the front of s, and what follows it.
  function DecodeValue(s: string, indent: string): (r: Option<(Json, string)>)
    requires |indent| >= 2
    ensures r.Some? ==> |r.value.1| < |s|
    decreases |s|, 1
  {
    match LeadOf(s)
    case EmptyObject => DecodeToken(s, GRAY + "{}" + RESET, Object(map[]))
    case EmptyArray => DecodeToken(s, GRAY + "[]" + RESET, Array([]))
    case SomeObject =>
      var s1 :- Expect(s, GRAY + "{" + RESET);
      var m :- DecodeMembers(s1, indent);
      var rest :- Expect(m.1, Close("}", indent));
      Some((Object(m.0), rest))
    case SomeArray =>
      var s1 :- Expect(s, GRAY + "[" + RESET);
      var items :- DecodeItems(s1, indent);
      var rest :- Expect(items.1, Close("]", indent));
      Some((Array(items.0), rest))
    case AText => DecodeText(s)
    case ANumber => DecodeNumber(s)
    case ATrue => DecodeToken(s, YELLOW + "true" + RESET, Bool(true))
    case AFalse => DecodeToken(s, YELLOW + "false" + RESET, Bool(false))
    case ANull => DecodeToken(s, GRAY + "null" + RESET, Null)
  }

  function DecodeMembers(s: string, indent: string): (r: Option<(map<string, Json>, string)>)
    requires |indent| >= 2
    ensures r.Some? ==> |r.value.1| < |s|
    decreases |s|, 0
  {
    var s1 :- Expect(s, KeyLead(indent));
    var key := UpToEscape(s1);
    assert |key.0| + |key.1| == |s1|;
    var s2 :- Expect(key.1, MARK);
    var v :- DecodeValue(s2, indent + "  ");
    if COMMA <= v.1 then
      var more :- DecodeMembers(v.1[|COMMA|..], indent);
      Some((more.0[key.0 := v.0], more.1))
    else Some((map[key.0 := v.0], v.1))
  }

  function DecodeItems(s: string, indent: string): (r: Option<(seq<Json>, string)>)
    requires |indent| >= 2
    ensures r.Some? ==> |r.value.1| < |s|
    decreases |s|, 0
  {
    var s1 :- Expect(s, "\n" + indent);
    var v :- DecodeValue(s1, indent + "  ");
    if COMMA <= v.1 then
      var more :- DecodeItems(v.1[|COMMA|..], indent);
      Some(([v.0] + more.0, more.1))
    else Some(([v.0], v.1))
  }

  // The whole output, nothing left over.
  function Decode(s: string, indent: string): Option<Json>
    requires |indent| >= 2
  {
    var r :- DecodeValue(s, indent);
    if r.1 == "" then Some(r.0) else None
  }

  // No object key and no number literal contains an escape character.
  ghost predicate EscapeFree(t: Json) {
    match t
    case Object(m) => forall k :: k in m ==> ESC !in k && EscapeFree(m[k])
    case Array(items) => forall i :: 0 <= i < |items| ==> EscapeFree(items[i])
    case Number(n) => ESC !in n
    case _ => true
  }
}
