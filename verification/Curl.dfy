/** The cURL command generator, and what a POSIX shell makes of its output. */
module Curl {
  import opened Base64
  import opened Shell
  import opened Utf8

  // A header as JavaScript sees it: null, an array, or a single string.
  datatype HeaderValue = Null | Many(values: seq<string>) | Single(value: string)

  datatype Header = Header(name: string, value: HeaderValue)

  // `headers` in the order of Object.entries; a missing body is "".
  datatype Options = Options(httpMethod: string, url: string, headers: seq<Header>, body: string)

  function UpperChar(c: char): char {
    if 'a' <= c <= 'z' then (c - 'a') + 'A' else c
  }

  function ToUpper(s: string): string {
    seq(|s|, i requires 0 <= i < |s| => UpperChar(s[i]))
  }

  function Join(values: seq<string>): string {
    if values == [] then ""
    else if |values| == 1 then values[0]
    else values[0] + ", " + Join(values[1..])
  }

  // JavaScript's falsy values: a missing header or an empty string is left out.
  predicate IsSkipped(h: Header) {
    h.value == Null || h.value == Single("")
  }

  function ValueText(h: Header): string {
    match h.value
    case Null => ""
    case Many(vs) => Join(vs)
    case Single(v) => v
  }

  predicate ShowsMethod(o: Options) {
    o.httpMethod != "" && ToUpper(o.httpMethod) != "GET"
  }

  function Payload(body: string): string {
    if IsBase64(body) then DecodeBase64(body) else body
  }

  // ---------- The argument vector the command stands for ----------

  function HeaderArgs(hs: seq<Header>): seq<string> {
    if hs == [] then []
    else (if IsSkipped(hs[0]) then [] else ["-H", hs[0].name + ": " + ValueText(hs[0])]) + HeaderArgs(hs[1..])
  }

  function MethodArgs(o: Options): seq<string> {
    if ShowsMethod(o) then ["-X", ToUpper(o.httpMethod)] else []
  }

  function BodyArgs(o: Options): seq<string> {
    if o.body != "" then ["-d", Payload(o.body)] else []
  }

  function Arguments(o: Options): seq<string> {
    ["curl"] + MethodArgs(o) + HeaderArgs(o.headers) + BodyArgs(o) + [o.url]
  }

  // ---------- The text ----------

  function Head(o: Options): string {
    "curl" + (if ShowsMethod(o) then " -X " + ToUpper(o.httpMethod) else "")
  }

  function HeaderPart(h: Header): string {
    if IsSkipped(h) then "" else BREAK + "-H '" + h.name + ": " + Escape(ValueText(h)) + "'"
  }

  function BodyPart(o: Options): string {
    if o.body != "" then BREAK + "-d '" + Escape(Payload(o.body)) + "'" else ""
  }

  function Tail(hs: seq<Header>, o: Options): string {
    if hs == [] then BodyPart(o) + (BREAK + "'" + o.url + "'") else HeaderPart(hs[0]) + Tail(hs[1..], o)
  }

  function Command(o: Options): string {
    Head(o) + Tail(o.headers, o)
  }

  predicate PlainMethod(o: Options) {
    ShowsMethod(o) ==> forall c :: c in ToUpper(o.httpMethod) ==> IsPlain(c)
  }

  ghost predicate NamesQuoteFree(hs: seq<Header>) {
    forall i :: 0 <= i < |hs| && !IsSkipped(hs[i]) ==> !HasQuote(hs[i].name)
  }

  // For a plain method, a shell reads the command back as intended exactly when
  // no shown header name and not the URL contains a single quote.
  ghost predicate ReadsBackIffQuoteFree(o: Options, command: string) {
    PlainMethod(o) ==>
      (Lex(command) == Words(Arguments(o)) <==> NamesQuoteFree(o.headers) && !HasQuote(o.url))
  }

  // The loop over the headers, its body and its URL.
  method AppendHeaders(curl: string, o: Options) returns (curlCommand: string)
    ensures curlCommand + Tail([], o) == curl + Tail(o.headers, o)
  {
    curlCommand := curl;
    var i := 0;
    while i < |o.headers|
      invariant 0 <= i <= |o.headers|
      invariant curlCommand + Tail(o.headers[i..], o) == curl + Tail(o.headers, o)
    {
      var h := o.headers[i];
      assert o.headers[i..][1..] == o.headers[i + 1..];
      ghost var before, rest := curlCommand, Tail(o.headers[i + 1..], o);
      Regroup(before, HeaderPart(h), rest);
      if !IsSkipped(h) {
        curlCommand := curlCommand + (BREAK + "-H '" + h.name + ": " + Escape(ValueText(h)) + "'");
      }
      assert curlCommand == before + HeaderPart(h);
      i := i + 1;
    }
    assert o.headers[i..] == [];
  }

  lemma Regroup(a: string, b: string, c: string)
    ensures a + (b + c) == a + b + c
  {
  }

  method GenerateCurlCommand(o: Options) returns (curlCommand: string)
    ensures curlCommand == Command(o) && ReadsBackIffQuoteFree(o, curlCommand)
  {
    curlCommand := "curl";
    if o.httpMethod != "" && ToUpper(o.httpMethod) != "GET" {
      curlCommand := curlCommand + (" -X " + ToUpper(o.httpMethod));
    }
    assert curlCommand == Head(o);
    curlCommand := AppendHeaders(curlCommand, o);
    ghost var withHeaders := curlCommand;
    curlCommand := AppendBody(curlCommand, o);
    curlCommand := curlCommand + (BREAK + "'" + o.url + "'");
    AppendUrl(withHeaders, o);
    LexesIff(o);
  }

  lemma AppendUrl(withHeaders: string, o: Options)
    ensures withHeaders + BodyPart(o) + (BREAK + "'" + o.url + "'") == withHeaders + Tail([], o)
  {
    var last := BREAK + "'" + o.url + "'";
    assert withHeaders + BodyPart(o) + last == withHeaders + (BodyPart(o) + last);
  }

  method AppendBody(curl: string, o: Options) returns (curlCommand: string)
    ensures curlCommand == curl + BodyPart(o)
  {
    curlCommand := curl;
    if o.body != "" {
      var processedBody := o.body;
      if IsBase64(o.body) {
        processedBody := DecodeBase64(o.body);
      }
      curlCommand := curlCommand + (BREAK + "-d '" + Escape(processedBody) + "'");
    }
  }

  // ---------- Reading it back ----------

  lemma HeadReads(o: Options, rest: string)
    requires PlainMethod(o) && rest != "" && rest[0] == ' '
    ensures var w := if ShowsMethod(o) then ToUpper(o.httpMethod) else "curl";
      Lex(Head(o) + rest) == Unquoted(rest, Word(w), if ShowsMethod(o) then ["curl", "-X"] else [])
  {
    if ShowsMethod(o) {
      MethodReads(ToUpper(o.httpMethod), rest);
    } else {
      assert Head(o) == "curl";
      PlainWordReads("curl", rest, []);
    }
  }

  lemma MethodReads(m: string, rest: string)
    requires m != "" && forall c :: c in m ==> IsPlain(c)
    ensures Lex("curl" + (" -X " + m) + rest) == Unquoted(rest, Word(m), ["curl", "-X"])
  {
    var r3 := m + rest;
    var r2 := "-X" + (" " + r3);
    assert "curl" + (" -X " + m) + rest == "curl" + (" " + r2);
    PlainWordReads("curl", " " + r2, []);
    BlankReads(r2, "curl", []);
    assert [] + ["curl"] == ["curl"];
    PlainWordReads("-X", " " + r3, ["curl"]);
    BlankReads(r3, "-X", ["curl"]);
    assert ["curl"] + ["-X"] == ["curl", "-X"];
    PlainWordReads(m, rest, ["curl", "-X"]);
  }

  // `-H '` or `-d '` after a break: the flag is read and a quote opens.
  lemma FlagReads(flag: string, rest: string, text: string, done: seq<string>)
    requires flag == "-H" || flag == "-d"
    ensures Unquoted(BREAK + flag + " '" + rest, Word(text), done) == Quoted(rest, "", done + [text, flag])
  {
    var s2 := " " + ("'" + rest);
    FlagText(flag, rest);
    BreakReads(flag + s2, text, done);
    PlainWordReads(flag, s2, done + [text]);
    FlagOpens(flag, rest, text, done);
  }

  lemma FlagOpens(flag: string, rest: string, text: string, done: seq<string>)
    ensures Unquoted(" " + ("'" + rest), Word(flag), done + [text]) == Quoted(rest, "", done + [text, flag])
  {
    BlankReads("'" + rest, flag, done + [text]);
    OpenQuoteReads(rest, done + [text] + [flag]);
    assert done + [text] + [flag] == done + [text, flag];
  }

  lemma FlagText(flag: string, rest: string)
    ensures BREAK + flag + " '" + rest == BREAK + (flag + (" " + ("'" + rest)))
  {
    var open := " " + "'";
    assert open == " '";
    assert " " + ("'" + rest) == open + rest;
  }

  lemma HeaderOpens(h: Header, rest: string, text: string, done: seq<string>)
    requires !IsSkipped(h)
    ensures Unquoted(HeaderPart(h) + rest, Word(text), done)
         == Quoted(h.name + ": " + Escape(ValueText(h)) + ['\''] + rest, "", done + [text, "-H"])
  {
    var inside := h.name + ": " + Escape(ValueText(h)) + ['\''] + rest;
    assert HeaderPart(h) + rest == BREAK + "-H" + " '" + inside;
    FlagReads("-H", inside, text, done);
  }

  lemma HeaderReads(h: Header, rest: string, text: string, done: seq<string>)
    requires !IsSkipped(h) && !HasQuote(h.name)
    ensures Unquoted(HeaderPart(h) + rest, Word(text), done)
         == Unquoted(rest, Word(h.name + ": " + ValueText(h)), done + [text, "-H"])
  {
    var k, v := h.name + ": ", ValueText(h);
    HeaderOpens(h, rest, text, done);
    assert !HasQuote(k);
    EscapeOfQuoteFree(k);
    EscapeConcat(k, v);
    assert h.name + ": " + Escape(v) + ['\''] + rest == Escape(k + v) + ['\''] + rest;
    EscapeReads(k + v, rest, "", done + [text, "-H"]);
    assert "" + (k + v) == k + v;
  }

  lemma {:induction false} EscapeConcat(a: string, b: string)
    ensures Escape(a + b) == Escape(a) + Escape(b)
  {
    if a == "" {
      assert a + b == b;
    } else {
      assert (a + b)[1..] == a[1..] + b;
      EscapeConcat(a[1..], b);
    }
  }

  lemma PayloadText(o: Options, last: string)
    requires o.body != "" && last == "'" + o.url + "'"
    ensures Tail([], o) == BREAK + "-d" + " '" + (Escape(Payload(o.body)) + ['\''] + (BREAK + last))
  {
    var flag, p := BREAK + "-d" + " '", Escape(Payload(o.body));
    assert BREAK + "-d '" == flag && "'" == ['\''];
    assert flag + p + ['\''] + (BREAK + last) == flag + (p + ['\''] + (BREAK + last));
  }

  lemma PayloadReads(o: Options, text: string, done: seq<string>, last: string)
    requires o.body != "" && last == "'" + o.url + "'"
    ensures Unquoted(Tail([], o), Word(text), done)
         == Unquoted(BREAK + last, Word(Payload(o.body)), done + [text, "-d"])
  {
    var p, rest := Payload(o.body), BREAK + last;
    PayloadText(o, last);
    FlagReads("-d", Escape(p) + ['\''] + rest, text, done);
    EscapeReads(p, rest, "", done + [text, "-d"]);
    assert "" + p == p;
  }

  lemma BodyReads(o: Options, text: string, done: seq<string>)
    ensures Unquoted(Tail([], o), Word(text), done) == Quoted(o.url + ['\''], "", done + [text] + BodyArgs(o))
  {
    var last := "'" + o.url + "'";
    assert last[0] == '\'' && last[1..] == o.url + ['\''];
    if o.body != "" {
      var p := Payload(o.body);
      PayloadReads(o, text, done, last);
      BreakReads(last, p, done + [text, "-d"]);
      assert done + [text, "-d"] + [p] == done + [text] + BodyArgs(o);
    } else {
      assert Tail([], o) == BREAK + last;
      BreakReads(last, text, done);
      assert done + [text] + BodyArgs(o) == done + [text];
    }
  }

  lemma SkippedHeader(hs: seq<Header>, o: Options)
    requires hs != [] && IsSkipped(hs[0])
    ensures Tail(hs, o) == Tail(hs[1..], o) && HeaderArgs(hs) == HeaderArgs(hs[1..])
  {
    assert "" + Tail(hs[1..], o) == Tail(hs[1..], o);
    assert [] + HeaderArgs(hs[1..]) == HeaderArgs(hs[1..]);
  }

  lemma ShownHeader(hs: seq<Header>, text: string, done: seq<string>)
    requires hs != [] && !IsSkipped(hs[0])
    ensures var word := hs[0].name + ": " + ValueText(hs[0]);
      done + [text, "-H"] + [word] + HeaderArgs(hs[1..]) == done + [text] + HeaderArgs(hs)
  {
    var word, rest := hs[0].name + ": " + ValueText(hs[0]), HeaderArgs(hs[1..]);
    assert HeaderArgs(hs) == ["-H", word] + rest;
    RegroupArgs(done, text, word, rest);
  }

  lemma RegroupArgs(done: seq<string>, text: string, word: string, rest: seq<string>)
    ensures done + [text, "-H"] + [word] + rest == done + [text] + (["-H", word] + rest)
  {
  }

  // With quote-free names the reader arrives at the URL with every argument right.
  lemma {:induction false} TailReads(hs: seq<Header>, o: Options, text: string, done: seq<string>)
    requires NamesQuoteFree(hs)
    ensures Unquoted(Tail(hs, o), Word(text), done)
         == Quoted(o.url + ['\''], "", done + [text] + HeaderArgs(hs) + BodyArgs(o))
  {
    if hs == [] {
      BodyReads(o, text, done);
      assert done + [text] + HeaderArgs(hs) == done + [text];
    } else {
      assert NamesQuoteFree(hs[1..]) by {
        assert forall i :: 0 <= i < |hs[1..]| ==> hs[1..][i] == hs[i + 1];
      }
      if IsSkipped(hs[0]) {
        SkippedHeader(hs, o);
        TailReads(hs[1..], o, text, done);
      } else {
        var word := hs[0].name + ": " + ValueText(hs[0]);
        HeaderReads(hs[0], Tail(hs[1..], o), text, done);
        TailReads(hs[1..], o, word, done + [text, "-H"]);
        ShownHeader(hs, text, done);
      }
    }
  }

  lemma {:induction false} TailStartsWithBlank(hs: seq<Header>, o: Options)
    ensures Tail(hs, o) != "" && Tail(hs, o)[0] == ' '
  {
    if hs != [] {
      TailStartsWithBlank(hs[1..], o);
    }
  }

  // A name with a quote: some argument comes out wrong.
  lemma {:induction false} BadNameShows(hs: seq<Header>, o: Options, text: string, done: seq<string>)
    requires !NamesQuoteFree(hs)
    ensures Unquoted(Tail(hs, o), Word(text), done) != Words(done + [text] + HeaderArgs(hs) + BodyArgs(o) + [o.url])
  {
    var i :| 0 <= i < |hs| && !IsSkipped(hs[i]) && HasQuote(hs[i].name);
    if IsSkipped(hs[0]) {
      assert hs[1..][i - 1] == hs[i];
      BadNameShows(hs[1..], o, text, done);
      SkippedHeader(hs, o);
    } else if HasQuote(hs[0].name) {
      BadHeader(hs, o, text, done);
    } else {
      assert hs[1..][i - 1] == hs[i];
      var word := hs[0].name + ": " + ValueText(hs[0]);
      HeaderReads(hs[0], Tail(hs[1..], o), text, done);
      BadNameShows(hs[1..], o, word, done + [text, "-H"]);
      ShownHeader(hs, text, done);
    }
  }

  lemma BadHeader(hs: seq<Header>, o: Options, text: string, done: seq<string>)
    requires hs != [] && !IsSkipped(hs[0]) && HasQuote(hs[0].name)
    ensures Unquoted(Tail(hs, o), Word(text), done) != Words(done + [text] + HeaderArgs(hs) + BodyArgs(o) + [o.url])
  {
    var name, v, rest := hs[0].name, ValueText(hs[0]), Tail(hs[1..], o);
    var now := done + [text, "-H"];
    HeaderOpens(hs[0], rest, text, done);
    TailStartsWithBlank(hs[1..], o);
    assert rest == [' '] + rest[1..];
    assert name + ": " + Escape(v) + ['\''] + rest == HeaderTail(name, v, rest[1..]);
    NameCosts(name, v, rest[1..], "", now, true);
    var want := done + [text] + HeaderArgs(hs) + BodyArgs(o) + [o.url];
    assert want[|now|] == name + ": " + v;
  }

  lemma LexesIff(o: Options)
    ensures ReadsBackIffQuoteFree(o, Command(o))
  {
    if !PlainMethod(o) { return; }
    var w := if ShowsMethod(o) then ToUpper(o.httpMethod) else "curl";
    var done := if ShowsMethod(o) then ["curl", "-X"] else [];
    TailStartsWithBlank(o.headers, o);
    HeadReads(o, Tail(o.headers, o));
    assert ["curl"] + MethodArgs(o) == done + [w];
    if NamesQuoteFree(o.headers) {
      TailReads(o.headers, o, w, done);
      var args := done + [w] + HeaderArgs(o.headers) + BodyArgs(o);
      LastWordIff(o.url, "", args);
      assert "" + o.url == o.url;
    } else {
      BadNameShows(o.headers, o, w, done);
    }
  }

  // A command of a plain method whose shown names and URL are quote-free.
  ghost predicate ReadsBack(o: Options) {
    PlainMethod(o) && NamesQuoteFree(o.headers) && !HasQuote(o.url)
  }

  // What the shell hands to curl ends in -d, the body and the URL.
  lemma BodyArgument(o: Options)
    requires ReadsBack(o) && o.body != ""
    ensures var args := Arguments(o);
      Lex(Command(o)) == Words(args) && |args| > 3 && args[|args| - 3..] == ["-d", Payload(o.body), o.url]
  {
    LexesIff(o);
    var front := ["curl"] + MethodArgs(o) + HeaderArgs(o.headers);
    assert Arguments(o) == front + ["-d", Payload(o.body), o.url];
  }

  // A captured body is stored base64-encoded.  Decoded, it is one character per byte, and the
  // shell receives the command as UTF-8: curl is handed the captured bytes exactly when all
  // of them are ASCII, and more bytes otherwise.
  lemma CapturedBodyArrivesIff(o: Options, captured: seq<Byte>)
    requires ReadsBack(o) && captured != [] && o.body == Encode(captured)
    ensures var args := Arguments(o);
      && Lex(Command(o)) == Words(args) && |args| > 3 && args[|args| - 3] == "-d"
      && (EncodeText(args[|args| - 2]) == captured <==> AllAscii(captured))
      && (!AllAscii(captured) ==> |EncodeText(args[|args| - 2])| > |captured|)
  {
    CapturedPayload(o.body, captured);
    BodyArgument(o);
    BinaryTextIff(captured);
    var args := Arguments(o);
    assert args[|args| - 3..][0] == args[|args| - 3] && args[|args| - 3..][1] == args[|args| - 2];
  }

  // An e with an acute accent, captured as two bytes, arrives as four.
  lemma AccentArrivesAsFourBytes(o: Options)
    requires ReadsBack(o) && o.body == Encode([0xC3, 0xA9])
    ensures var args := Arguments(o);
      && Lex(Command(o)) == Words(args) && |args| > 3
      && EncodeText(args[|args| - 2]) == [0xC3, 0x83, 0xC2, 0xA9]
  {
    CapturedPayload(o.body, [0xC3, 0xA9]);
    BodyArgument(o);
    var args := Arguments(o);
    assert args[|args| - 3..][1] == args[|args| - 2];
    AccentedE();
  }

  lemma CapturedPayload(body: string, captured: seq<Byte>)
    requires captured != [] && body == Encode(captured)
    ensures Payload(body) == Binary(captured) && body != ""
  {
    RecognisesCanonical(body);
    RoundTrip(captured);
  }

  // A body given as plain text arrives unchanged exactly when it is no canonical encoding;
  // otherwise it is decoded, to other text.
  lemma PlainBodyUnchangedIff(o: Options)
    requires ReadsBack(o) && o.body != ""
    ensures var args := Arguments(o);
      && Lex(Command(o)) == Words(args) && |args| > 3 && args[|args| - 3] == "-d"
      && (args[|args| - 2] == o.body <==> !exists bs :: bs != [] && o.body == Encode(bs))
  {
    BodyArgument(o);
    var args := Arguments(o);
    assert args[|args| - 3..][0] == args[|args| - 3] && args[|args| - 3..][1] == args[|args| - 2];
    PayloadUnchangedIff(o.body);
  }

  lemma PayloadUnchangedIff(body: string)
    requires body != ""
    ensures Payload(body) == body <==> !exists bs :: bs != [] && body == Encode(bs)
  {
    RecognisesCanonical(body);
    if bs :| bs != [] && body == Encode(bs) {
      RoundTrip(bs);
      assert |Binary(bs)| == |bs| < |Encode(bs)|;
    }
  }

  // ---------- The words, one by one ----------

  // Where value j begins when the values are joined.
  function OffsetOf(values: seq<string>, j: nat): nat
    requires j <= |values|
  {
    if j == 0 then 0 else OffsetOf(values, j - 1) + |values[j - 1]| + 2
  }

  // The values in order, with a comma and a blank between neighbours and nothing else.
  ghost predicate IsJoined(text: string, values: seq<string>) {
    if values == [] then text == ""
    else
      && |text| + 2 == OffsetOf(values, |values|)
      && (forall j :: 0 <= j < |values| ==> ValueAt(text, values, j))
      && (forall j :: 0 < j < |values| ==> SeparatorBefore(text, values, j))
  }

  ghost predicate ValueAt(text: string, values: seq<string>, j: nat)
    requires j < |values|
  {
    var at := OffsetOf(values, j);
    at + |values[j]| <= |text| && text[at..at + |values[j]|] == values[j]
  }

  ghost predicate SeparatorBefore(text: string, values: seq<string>, j: nat)
    requires 0 < j < |values|
  {
    var at := OffsetOf(values, j);
    2 <= at <= |text| && text[at - 2..at] == ", "
  }

  lemma {:induction false} OffsetShift(values: seq<string>, j: nat)
    requires values != [] && 0 < j <= |values|
    ensures OffsetOf(values, j) == |values[0]| + 2 + OffsetOf(values[1..], j - 1)
  {
    if j > 1 {
      OffsetShift(values, j - 1);
    }
  }

  lemma SliceBehind(front: string, rest: string, a: nat, b: nat)
    requires a <= b <= |rest|
    ensures (front + rest)[|front| + a..|front| + b] == rest[a..b]
  {
  }

  lemma {:induction false} JoinIsJoined(values: seq<string>)
    ensures IsJoined(Join(values), values)
  {
    if |values| > 1 {
      var rest, text, front := values[1..], Join(values[1..]), values[0] + ", ";
      JoinIsJoined(rest);
      OffsetShift(values, |values|);
      assert Join(values) == front + text;
      forall j | 0 <= j < |values|
        ensures ValueAt(Join(values), values, j) && (j > 0 ==> SeparatorBefore(Join(values), values, j))
      {
        if j > 0 {
          JoinedLater(values, j, text);
        }
      }
    }
  }

  lemma JoinedLater(values: seq<string>, j: nat, text: string)
    requires 0 < j < |values| && IsJoined(text, values[1..])
    ensures ValueAt(values[0] + ", " + text, values, j) && SeparatorBefore(values[0] + ", " + text, values, j)
  {
    var rest, front := values[1..], values[0] + ", ";
    OffsetShift(values, j);
    var at := OffsetOf(rest, j - 1);
    assert ValueAt(text, rest, j - 1);
    SliceBehind(front, text, at, at + |rest[j - 1]|);
    if j > 1 {
      assert SeparatorBefore(text, rest, j - 1);
      SliceBehind(front, text, at - 2, at);
    }
  }

  // The word after -H for this header.
  ghost predicate IsHeaderWord(word: string, h: Header) {
    var front := h.name + [':', ' '];
    && |word| >= |front| && word[..|front|] == front
    && match h.value
       case Null => false
       case Many(values) => IsJoined(word[|front|..], values)
       case Single(value) => word[|front|..] == value
  }

  lemma HeaderWord(h: Header)
    requires !IsSkipped(h)
    ensures IsHeaderWord(h.name + ": " + ValueText(h), h)
  {
    var front, word := h.name + ": ", h.name + ": " + ValueText(h);
    assert word[..|front|] == front && word[|front|..] == ValueText(h);
    if h.value.Many? { JoinIsJoined(h.value.values); }
  }

  // How many of the headers are shown: all but null and the empty text.
  function Shown(hs: seq<Header>): nat {
    if hs == [] then 0
    else Shown(hs[..|hs| - 1]) + if hs[|hs| - 1].value != Null && hs[|hs| - 1].value != Single("") then 1 else 0
  }

  lemma {:induction false} HeaderArgsSnoc(hs: seq<Header>, h: Header)
    ensures HeaderArgs(hs + [h]) == HeaderArgs(hs) + if IsSkipped(h) then [] else ["-H", h.name + ": " + ValueText(h)]
  {
    if hs == [] {
      assert hs + [h] == [h] && [h][1..] == [];
    } else {
      assert (hs + [h])[1..] == hs[1..] + [h];
      HeaderArgsSnoc(hs[1..], h);
    }
  }

  lemma {:induction false} HeaderArgsAt(hs: seq<Header>, i: nat)
    requires i < |hs| && hs[i].value != Null && hs[i].value != Single("")
    ensures var at := 2 * Shown(hs[..i]);
      at + 1 < |HeaderArgs(hs)| && HeaderArgs(hs)[at] == "-H" && IsHeaderWord(HeaderArgs(hs)[at + 1], hs[i])
    decreases |hs|
  {
    var front, h := hs[..|hs| - 1], hs[|hs| - 1];
    assert hs == front + [h];
    HeaderArgsSnoc(front, h);
    HeaderArgsLength(front);
    if i == |hs| - 1 {
      HeaderWord(h);
    } else {
      HeaderArgsAt(front, i);
      assert front[..i] == hs[..i];
    }
  }

  lemma {:induction false} HeaderArgsLength(hs: seq<Header>)
    ensures |HeaderArgs(hs)| == 2 * Shown(hs)
  {
    if hs != [] {
      assert hs == hs[..|hs| - 1] + [hs[|hs| - 1]];
      HeaderArgsSnoc(hs[..|hs| - 1], hs[|hs| - 1]);
      HeaderArgsLength(hs[..|hs| - 1]);
    }
  }

  // Empty, or GET in any mixture of cases.
  predicate IsGet(m: string) {
    m == "" || (|m| == 3 && m[0] in "gG" && m[1] in "eE" && m[2] in "tT")
  }

  // The letters from a to z raised, everything else as it was.
  ghost predicate IsRaised(word: string, m: string) {
    |word| == |m| &&
    forall i :: 0 <= i < |m| ==>
      word[i] as int == if 97 <= m[i] as int <= 122 then m[i] as int - 32 else m[i] as int
  }

  lemma MethodIsRaised(m: string)
    ensures IsRaised(ToUpper(m), m)
    ensures ToUpper(m) == "GET" || m == "" <==> IsGet(m)
  {
    if |m| == 3 {
      assert ToUpper(m) == [UpperChar(m[0]), UpperChar(m[1]), UpperChar(m[2])];
    }
  }

  function MethodWords(o: Options): nat {
    if IsGet(o.httpMethod) then 0 else 2
  }

  function BodyWords(o: Options): nat {
    if o.body == "" then 0 else 2
  }

  // Word by word: curl; the method after -X, unless it is GET or missing; name and value of each
  // header shown after a -H, in order; the body after -d, unless it is empty; the URL.
  ghost predicate IsLaidOut(words: seq<string>, o: Options) {
    && |words| == 1 + MethodWords(o) + 2 * Shown(o.headers) + BodyWords(o) + 1
    && words[0] == "curl" && words[|words| - 1] == o.url
    && (!IsGet(o.httpMethod) ==> words[1] == "-X" && IsRaised(words[2], o.httpMethod))
    && (o.body != "" ==> words[|words| - 3] == "-d" && words[|words| - 2] == Payload(o.body))
    && HeadersIn(words, o)
  }

  ghost predicate HeadersIn(words: seq<string>, o: Options) {
    forall i :: 0 <= i < |o.headers| && o.headers[i].value != Null && o.headers[i].value != Single("") ==>
      HeaderIn(words, 1 + MethodWords(o) + 2 * Shown(o.headers[..i]), o.headers[i])
  }

  lemma FrontWords(o: Options)
    ensures var front := ["curl"] + MethodArgs(o);
      |front| == 1 + MethodWords(o) && (!IsGet(o.httpMethod) ==> front[1] == "-X" && IsRaised(front[2], o.httpMethod))
  {
    MethodIsRaised(o.httpMethod);
  }

  lemma BackWords(o: Options)
    ensures var back := BodyArgs(o) + [o.url];
      |back| == BodyWords(o) + 1 && back[|back| - 1] == o.url
      && (o.body != "" ==> back[0] == "-d" && back[1] == Payload(o.body))
  {
  }

  lemma HeadersAreIn(o: Options, front: seq<string>, back: seq<string>)
    requires |front| == 1 + MethodWords(o)
    ensures HeadersIn(front + HeaderArgs(o.headers) + back, o)
  {
    forall i | 0 <= i < |o.headers| && o.headers[i].value != Null && o.headers[i].value != Single("")
      ensures HeaderIn(front + HeaderArgs(o.headers) + back, |front| + 2 * Shown(o.headers[..i]), o.headers[i])
    {
      HeaderArgsAt(o.headers, i);
      InTheMiddle(front, HeaderArgs(o.headers), back, 2 * Shown(o.headers[..i]));
    }
  }

  lemma EndWords(a: seq<string>, b: seq<string>, c: seq<string>)
    ensures forall i :: 0 <= i < |a| ==> (a + b + c)[i] == a[i]
    ensures forall i :: 0 <= i < |c| ==> (a + b + c)[|a| + |b| + i] == c[i]
  {
  }

  lemma ArgumentsLaidOut(o: Options)
    ensures IsLaidOut(Arguments(o), o)
  {
    var front, back := ["curl"] + MethodArgs(o), BodyArgs(o) + [o.url];
    assert Arguments(o) == front + HeaderArgs(o.headers) + back;
    FrontWords(o);
    BackWords(o);
    HeaderArgsLength(o.headers);
    HeadersAreIn(o, front, back);
    EndWords(front, HeaderArgs(o.headers), back);
  }

  // A command that reads back is laid out so.
  lemma CommandWords(o: Options)
    requires ReadsBack(o)
    ensures Lex(Command(o)).Words? && IsLaidOut(Lex(Command(o)).words, o)
  {
    LexesIff(o);
    ArgumentsLaidOut(o);
  }

  ghost predicate HeaderIn(words: seq<string>, at: nat, h: Header) {
    at + 1 < |words| && words[at] == "-H" && IsHeaderWord(words[at + 1], h)
  }

  lemma InTheMiddle(a: seq<string>, b: seq<string>, c: seq<string>, i: nat)
    requires i + 1 < |b|
    ensures (a + b + c)[|a| + i] == b[i] && (a + b + c)[|a| + i + 1] == b[i + 1]
  {
  }

  // ---------- The text, for one request ----------

  // Each argument on a line of its own, joined to the one before by a backslash.
  lemma CommandText()
    ensures var o := Options("post", "http://h/", [Header("A", Many(["b", "c"])), Header("X", Null)], "it's");
      Command(o) == "curl -X POST" + " \\\n  -H 'A: b, c'" + (" \\\n  -d 'it'\\''s'" + " \\\n  'http://h/'")
  {
    var h, x := Header("A", Many(["b", "c"])), Header("X", Null);
    var o := Options("post", "http://h/", [h, x], "it's");
    assert Head(o) == "curl -X POST" by { assert ToUpper("post") == "POST"; }
    HeaderText(h);
    BodyText(o);
    assert [h, x][1..] == [x] && [x][1..] == [];
    assert Tail([x], o) == "" + Tail([], o) == Tail([], o);
    assert Tail([h, x], o) == HeaderPart(h) + Tail([x], o);
    assert Head(o) + (HeaderPart(h) + Tail([], o)) == Head(o) + HeaderPart(h) + Tail([], o);
    UrlText();
  }

  lemma UrlText()
    ensures BREAK + "'" + "http://h/" + "'" == " \\\n  'http://h/'"
  {
  }

  lemma HeaderText(h: Header)
    requires h == Header("A", Many(["b", "c"]))
    ensures HeaderPart(h) == " \\\n  -H 'A: b, c'"
  {
    assert ["b", "c"][1..] == ["c"];
    assert ValueText(h) == "b, c";
    EscapeOfQuoteFree("b, c");
    assert BREAK + "-H '" + "A" + ": " == " \\\n  -H 'A: ";
  }

  lemma BodyText(o: Options)
    requires o.body == "it's"
    ensures BodyPart(o) == " \\\n  -d 'it'\\''s'"
  {
    NoQuoteInBase64(o.body, 2);
    EscapedQuote();
    assert BREAK + "-d '" == " \\\n  -d '";
  }

  lemma EscapedQuote()
    ensures Escape("it's") == "it'\\''s"
  {
    EscapeOfQuoteFree("it");
    EscapeOfQuoteFree("s");
    EscapeConcat("it", "'s");
    EscapeConcat("'", "s");
    OneQuote();
    assert "it" + "'s" == "it's" && "'" + "s" == "'s";
    assert "it" + ("'\\''" + "s") == "it'\\''s";
  }

  lemma OneQuote()
    ensures Escape("'") == "'\\''"
  {
    assert "'"[1..] == "" && "'\\''" + "" == "'\\''";
  }

  lemma NoQuoteInBase64(s: string, i: nat)
    requires i < |s| && !IsDigit(s[i]) && s[i] != '='
    ensures !IsBase64(s)
  {
    forall n: nat | n <= |s| ensures !PaddedWith(s, n) {
      if i < |s| - n { assert s[..|s| - n][i] == s[i]; }
    }
  }
}
