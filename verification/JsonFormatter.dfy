/** The printer as it is written: it appends to a shared builder while it recurses. */
module JsonFormatter {
  import opened GoQuote
  import opened JsonPrinter

  class StringBuilder {
    var text: string

    constructor ()
      ensures text == ""
    {
      text := "";
    }

    method WriteString(s: string)
      modifies this
      ensures text == old(text) + s
    {
      text := text + s;
    }
  }

  function Rest(first: bool, more: string): string {
    if more == "" then "" else (if first then "" else COMMA) + more
  }

  lemma Regroup4(a: string, b: string, c: string, d: string)
    ensures a + b + c + d == a + (b + c + d)
  {
  }

  method FormatJSON(sb: StringBuilder, data: Json, indent: string, graphic: char -> bool)
    requires |indent| >= 2
    modifies sb
    ensures sb.text == old(sb.text) + Print(data, indent, graphic)
    decreases data, 1
  {
    match data
    case Object(v) =>
      if v == map[] {
        sb.WriteString(GRAY + "{}" + RESET);
        return;
      }
      var keys := SortedKeys(v.Keys);
      ghost var before, body := sb.text, PrintMembers(data, keys, indent, graphic);
      sb.WriteString(GRAY + "{" + RESET);
      FormatMembers(sb, data, keys, indent, graphic);
      sb.WriteString(Close("}", indent));
      Regroup4(before, GRAY + "{" + RESET, body, Close("}", indent));
    case Array(v) =>
      if v == [] {
        sb.WriteString(GRAY + "[]" + RESET);
        return;
      }
      ghost var before, body := sb.text, PrintItems(v, indent, graphic);
      sb.WriteString(GRAY + "[" + RESET);
      FormatItems(sb, v, indent, graphic);
      sb.WriteString(Close("]", indent));
      Regroup4(before, GRAY + "[" + RESET, body, Close("]", indent));
    case Text(v) =>
      sb.WriteString(GREEN + Quote(v, graphic) + RESET);
    case Number(v) =>
      sb.WriteString(MAGENTA + v + RESET);
    case Bool(v) =>
      sb.WriteString(YELLOW + (if v then "true" else "false") + RESET);
    case Null =>
      sb.WriteString(GRAY + "null" + RESET);
  }

  // The loop over the sorted keys.
  method FormatMembers(sb: StringBuilder, data: Json, keys: seq<string>, indent: string, graphic: char -> bool)
    requires |indent| >= 2 && data.Object? && forall k :: k in keys ==> k in data.members
    modifies sb
    ensures sb.text == old(sb.text) + PrintMembers(data, keys, indent, graphic)
    decreases data, 0
  {
    var first := true;
    ghost var start := sb.text;
    for i := 0 to |keys|
      invariant first <==> i == 0
      invariant sb.text + Rest(first, PrintMembers(data, keys[i..], indent, graphic))
             == start + PrintMembers(data, keys, indent, graphic)
    {
      ghost var t0 := sb.text;
      if !first {
        sb.WriteString(COMMA);
      }
      ghost var t1 := sb.text;
      var k := keys[i];
      sb.WriteString(KeyText(k, indent));
      FormatJSON(sb, data.members[k], indent + "  ", graphic);
      MembersUnfold(data, keys[i..], indent, graphic, t0, first);
      assert keys[i..][1..] == keys[i + 1..];
      first := false;
    }
    assert keys[|keys|..] == [];
  }

  lemma MembersUnfold(t: Json, keys: seq<string>, indent: string, graphic: char -> bool, before: string, first: bool)
    requires |indent| >= 2 && t.Object? && keys != [] && (forall k :: k in keys ==> k in t.members)
    ensures before + Rest(first, PrintMembers(t, keys, indent, graphic))
         == (if first then before else before + COMMA) + KeyText(keys[0], indent)
            + Print(t.members[keys[0]], indent + "  ", graphic)
            + Rest(false, PrintMembers(t, keys[1..], indent, graphic))
  {
    var key, value := KeyText(keys[0], indent), Print(t.members[keys[0]], indent + "  ", graphic);
    var more := if |keys| == 1 then "" else COMMA + PrintMembers(t, keys[1..], indent, graphic);
    assert PrintMembers(t, keys, indent, graphic) == key + value + more;
    assert |keys| > 1 ==> PrintMembers(t, keys[1..], indent, graphic) != "";
    assert more == Rest(false, PrintMembers(t, keys[1..], indent, graphic));
    RegroupComma(before, first, key, value, more);
  }

  lemma RegroupComma(before: string, first: bool, key: string, value: string, more: string)
    requires key + value + more != ""
    ensures before + Rest(first, key + value + more)
         == (if first then before else before + COMMA) + key + value + more
  {
    var b := if first then before else before + COMMA;
    assert b + key + value == b + (key + value);
    Regroup3(b, key + value, more);
    if !first { Regroup3(before, COMMA, key + value + more); }
  }

  lemma Regroup3(a: string, b: string, c: string)
    ensures a + b + c == a + (b + c)
  {
  }

  method FormatItems(sb: StringBuilder, items: seq<Json>, indent: string, graphic: char -> bool)
    requires |indent| >= 2
    modifies sb
    ensures sb.text == old(sb.text) + PrintItems(items, indent, graphic)
    decreases items, 0
  {
    var first := true;
    ghost var start := sb.text;
    for i := 0 to |items|
      invariant first <==> i == 0
      invariant sb.text + Rest(first, PrintItems(items[i..], indent, graphic)) == start + PrintItems(items, indent, graphic)
    {
      ghost var t0 := sb.text;
      if !first {
        sb.WriteString(COMMA);
      }
      ghost var t1 := sb.text;
      var line := "\n" + indent;
      sb.WriteString(line);
      FormatJSON(sb, items[i], indent + "  ", graphic);
      assert sb.text == t1 + line + Print(items[i], indent + "  ", graphic);
      assert items[i..][0] == items[i] && items[i..][1..] == items[i + 1..];
      ItemsUnfold(items[i..], indent, graphic, t0, first);
      first := false;
    }
    assert items[|items|..] == [];
  }

  lemma ItemsUnfold(items: seq<Json>, indent: string, graphic: char -> bool, before: string, first: bool)
    requires |indent| >= 2 && items != []
    ensures before + Rest(first, PrintItems(items, indent, graphic))
         == (if first then before else before + COMMA) + ("\n" + indent)
            + Print(items[0], indent + "  ", graphic) + Rest(false, PrintItems(items[1..], indent, graphic))
  {
    var line, value := "\n" + indent, Print(items[0], indent + "  ", graphic);
    var more := if |items| == 1 then "" else COMMA + PrintItems(items[1..], indent, graphic);
    assert PrintItems(items, indent, graphic) == line + value + more;
    assert |items| > 1 ==> PrintItems(items[1..], indent, graphic) != "";
    assert more == Rest(false, PrintItems(items[1..], indent, graphic));
    RegroupComma(before, first, line, value, more);
  }
}
