/**
 Lexing of a simple command under POSIX.1-2017, Shell Command Language: escape
 characters (2.2.1), single quotes (2.2.2) and token recognition (2.3).  Text
 that would need anything else (operators, expansions, double quotes, patterns,
 comments) is rejected, so an accepted command has one meaning in every shell.
 */
module Shell {

  datatype Lexed = Words(words: seq<string>) | Rejected

  // The word being read, if one has begun.
  datatype Current = Between | Word(text: string)

  predicate IsBlank(c: char) {
    c == ' ' || c == '\t'
  }

  // Stands for itself without quotes (section 2.2 lists the others).
  predicate IsPlain(c: char) {
    c !in "|&;<>()$`\\\"' \t\n*?[#~=%"
  }

  function Text(w: Current): string {
    if w.Word? then w.text else ""
  }

  function Finish(w: Current, done: seq<string>): seq<string> {
    if w.Word? then done + [w.text] else done
  }

  // Outside quotes.
  function Unquoted(s: string, w: Current, done: seq<string>): Lexed
    decreases |s|
  {
    if s == "" then Words(Finish(w, done))
    else if s[0] == '\\' then
      if |s| == 1 then Rejected
      else if s[1] == '\n' then Unquoted(s[2..], w, done)  // line continuation
      else Unquoted(s[2..], Word(Text(w) + [s[1]]), done)
    else if s[0] == '\'' then Quoted(s[1..], Text(w), done)
    else if IsBlank(s[0]) then Unquoted(s[1..], Between, Finish(w, done))
    else if IsPlain(s[0]) then Unquoted(s[1..], Word(Text(w) + [s[0]]), done)
    else Rejected
  }

  // Inside single quotes.
  function Quoted(s: string, text: string, done: seq<string>): Lexed
    decreases |s|
  {
    if s == "" then Rejected
    else if s[0] == '\'' then Unquoted(s[1..], Word(text), done)
    else Quoted(s[1..], text + [s[0]], done)
  }

  function Lex(s: string): Lexed {
    Unquoted(s, Between, [])
  }

  predicate HasQuote(s: string) {
    '\'' in s
  }

  // Each single quote is written as: close the quotes, an escaped quote, open them again.
  function Escape(v: string): string {
    if v == "" then "" else (if v[0] == '\'' then "'\\''" else [v[0]]) + Escape(v[1..])
  }

  // ---------- Reading what the generator writes ----------

  lemma EscapedQuoteReads(tail: string, text: string, done: seq<string>)
    ensures Quoted("'\\''" + tail, text, done) == Quoted(tail, text + ['\''], done)
  {
    var s, s1, s2 := "'\\''" + tail, "\\''" + tail, "'" + tail;
    assert s[0] == '\'' && s[1..] == s1 && s1[0] == '\\' && s1[1] == '\'' && s1[2..] == s2 && s2[1..] == tail;
    assert Quoted(s, text, done) == Unquoted(s1, Word(text), done);
    assert Unquoted(s1, Word(text), done) == Unquoted(s2, Word(text + ['\'']), done);
  }

  lemma {:induction false} EscapeReads(v: string, rest: string, text: string, done: seq<string>)
    ensures Quoted(Escape(v) + ['\''] + rest, text, done) == Unquoted(rest, Word(text + v), done)
  {
    var s := Escape(v) + ['\''] + rest;
    if v == "" {
      assert s == ['\''] + rest && s[1..] == rest && text + v == text;
    } else {
      var tail := Escape(v[1..]) + ['\''] + rest;
      EscapeReads(v[1..], rest, text + [v[0]], done);
      assert text + [v[0]] + v[1..] == text + v;
      if v[0] == '\'' {
        EscapedQuoteReads(tail, text, done);
        assert s == "'\\''" + tail;
      } else {
        assert s == [v[0]] + tail && s[1..] == tail;
      }
    }
  }

  lemma {:induction false} EscapeOfQuoteFree(v: string)
    requires !HasQuote(v)
    ensures Escape(v) == v
  {
    if v != "" {
      assert v[0] in v && (forall c :: c in v[1..] ==> c in v);
      EscapeOfQuoteFree(v[1..]);
    }
  }

  lemma {:induction false} PlainReads(p: string, rest: string, text: string, done: seq<string>)
    requires forall c :: c in p ==> IsPlain(c)
    ensures Unquoted(p + rest, Word(text), done) == Unquoted(rest, Word(text + p), done)
  {
    if p == "" {
      assert p + rest == rest && text + p == text;
    } else {
      assert p[0] in p && (p + rest)[1..] == p[1..] + rest;
      PlainReads(p[1..], rest, text + [p[0]], done);
      assert text + [p[0]] + p[1..] == text + p;
    }
  }

  lemma PlainWordReads(p: string, rest: string, done: seq<string>)
    requires p != "" && forall c :: c in p ==> IsPlain(c)
    ensures Unquoted(p + rest, Between, done) == Unquoted(rest, Word(p), done)
  {
    assert p[0] in p && (p + rest)[1..] == p[1..] + rest;
    PlainReads(p[1..], rest, [p[0]], done);
    assert [p[0]] + p[1..] == p && "" + [p[0]] == [p[0]];
    assert (p + rest)[0] == p[0] && Text(Between) == "";
    assert Unquoted(p + rest, Between, done) == Unquoted(p[1..] + rest, Word([p[0]]), done);
  }

  // A blank, a line continuation and two blanks: what separates the arguments.
  const BREAK: string := " \\\n  "

  lemma BreakReads(rest: string, text: string, done: seq<string>)
    ensures Unquoted(BREAK + rest, Word(text), done) == Unquoted(rest, Between, done + [text])
  {
    var s, s1, s3, s4 := BREAK + rest, "\\\n  " + rest, "  " + rest, " " + rest;
    var now := done + [text];
    assert s[0] == ' ' && s[1..] == s1 && s1[0] == '\\' && s1[1] == '\n' && s1[2..] == s3;
    assert s3[0] == ' ' && s3[1..] == s4 && s4[0] == ' ' && s4[1..] == rest;
    assert Unquoted(s, Word(text), done) == Unquoted(s1, Between, now);
    assert Unquoted(s1, Between, now) == Unquoted(s3, Between, now);
    assert Unquoted(s3, Between, now) == Unquoted(s4, Between, now);
  }

  lemma BlankReads(rest: string, text: string, done: seq<string>)
    ensures Unquoted(" " + rest, Word(text), done) == Unquoted(rest, Between, done + [text])
  {
    assert (" " + rest)[0] == ' ' && (" " + rest)[1..] == rest;
  }

  lemma OpenQuoteReads(rest: string, done: seq<string>)
    ensures Unquoted("'" + rest, Between, done) == Quoted(rest, "", done)
  {
    assert ("'" + rest)[0] == '\'' && ("'" + rest)[1..] == rest;
  }

  // ---------- What reading can and cannot produce ----------

  ghost predicate Extends(r: Lexed, done: seq<string>) {
    r.Words? ==> |done| <= |r.words| && r.words[..|done|] == done
  }

  // Words already read are never touched again.
  lemma {:induction false} KeepsDone(s: string, w: Current, done: seq<string>, quoted: bool)
    ensures quoted ==> Extends(Quoted(s, Text(w), done), done)
    ensures !quoted ==> Extends(Unquoted(s, w, done), done)
    decreases |s|
  {
    if s != "" {
      if quoted {
        if s[0] == '\'' {
          KeepsDone(s[1..], Word(Text(w)), done, false);
        } else {
          KeepsDone(s[1..], Word(Text(w) + [s[0]]), done, true);
        }
      } else if s[0] == '\\' {
        if |s| > 1 {
          KeepsDone(s[2..], if s[1] == '\n' then w else Word(Text(w) + [s[1]]), done, false);
        }
      } else if s[0] == '\'' {
        KeepsDone(s[1..], Word(Text(w)), done, true);
      } else if IsBlank(s[0]) {
        KeepsDone(s[1..], Between, Finish(w, done), false);
        var r := Unquoted(s[1..], Between, Finish(w, done));
        if r.Words? {
          assert r.words[..|done|] == r.words[..|Finish(w, done)|][..|done|];
        }
      } else if IsPlain(s[0]) {
        KeepsDone(s[1..], Word(Text(w) + [s[0]]), done, false);
      }
    }
  }

  function Weight(words: seq<string>): nat {
    if words == [] then 0 else Weight(words[..|words| - 1]) + |words[|words| - 1]|
  }

  // Text that ends in a quote loses at least that quote.
  lemma {:induction false} ClosingQuoteCosts(s: string, w: Current, done: seq<string>, quoted: bool)
    ensures var r := if quoted then Quoted(s + ['\''], Text(w), done) else Unquoted(s + ['\''], w, done);
      r.Words? ==> Weight(r.words) <= Weight(done) + |Text(w)| + |s|
    decreases |s|
  {
    var t := s + ['\''];
    if s == "" {
      assert t[1..] == "";
      assert quoted ==> Quoted(t, Text(w), done) == Words(done + [Text(w)]) && (done + [Text(w)])[..|done|] == done;
      assert !quoted ==> Unquoted(t, w, done) == Rejected;
    } else {
      assert t[1..] == s[1..] + ['\''];
      if quoted {
        if s[0] == '\'' {
          ClosingQuoteCosts(s[1..], Word(Text(w)), done, false);
        } else {
          ClosingQuoteCosts(s[1..], Word(Text(w) + [s[0]]), done, true);
        }
      } else if s[0] == '\\' {
        if |s| > 1 {
          assert t[2..] == s[2..] + ['\''];
          ClosingQuoteCosts(s[2..], if s[1] == '\n' then w else Word(Text(w) + [s[1]]), done, false);
        } else {
          assert t[2..] == "";
          var text := Text(w) + ['\''];
          assert Unquoted(t, w, done) == Words(done + [text]) && (done + [text])[..|done|] == done;
        }
      } else if s[0] == '\'' {
        ClosingQuoteCosts(s[1..], Word(Text(w)), done, true);
      } else if IsBlank(s[0]) {
        ClosingQuoteCosts(s[1..], Between, Finish(w, done), false);
        assert w.Word? ==> (done + [w.text])[..|done|] == done;
      } else if IsPlain(s[0]) {
        ClosingQuoteCosts(s[1..], Word(Text(w) + [s[0]]), done, false);
      }
    }
  }

  // The quote opened before `url` reaches the end of the text intact exactly when url has no quote.
  lemma {:induction false} LastWordIff(url: string, text: string, done: seq<string>)
    ensures Quoted(url + ['\''], text, done) == Words(done + [text + url]) <==> !HasQuote(url)
    decreases |url|
  {
    var t := url + ['\''];
    if url == "" {
      assert t[1..] == "" && text + url == text;
    } else {
      assert t[1..] == url[1..] + ['\''];
      assert HasQuote(url) <==> url[0] == '\'' || HasQuote(url[1..]);
      if url[0] == '\'' {
        ClosingQuoteCosts(url[1..], Word(text), done, false);
        assert (done + [text + url])[..|done|] == done;
      } else {
        LastWordIff(url[1..], text + [url[0]], done);
        assert text + [url[0]] + url[1..] == text + url;
      }
    }
  }

  // ---------- A header name with a quote spoils its word ----------

  // The rest of `'name: value'` and the blank that follows it.
  function HeaderTail(x: string, v: string, rest: string): string {
    x + ": " + Escape(v) + ['\''] + [' '] + rest
  }

  ghost predicate WordAtMost(r: Lexed, k: nat, n: int) {
    r.Words? ==> k < |r.words| && |r.words[k]| <= n
  }

  lemma WordEnds(s: string, text: string, done: seq<string>)
    requires s != "" && IsBlank(s[0])
    ensures WordAtMost(Unquoted(s, Word(text), done), |done|, |text|)
  {
    KeepsDone(s[1..], Between, done + [text], false);
    var r := Unquoted(s[1..], Between, done + [text]);
    if r.Words? {
      assert r.words[..|done| + 1][|done|] == text;
    }
  }

  // Reading on from inside the name, quoted or not, the word gets no longer than
  // the name, ": " and the value promise; and shorter if a quote in the name is met.
  lemma {:induction false} NameCosts(x: string, v: string, rest: string, text: string, done: seq<string>, quoted: bool)
    ensures var t := HeaderTail(x, v, rest);
      WordAtMost(if quoted then Quoted(t, text, done) else Unquoted(t, Word(text), done), |done|,
        |text| + |x| + 2 + |v| - (if quoted && HasQuote(x) then 1 else 0))
    decreases |x|
  {
    var t := HeaderTail(x, v, rest);
    if x == "" {
      assert t == ": " + Escape(v) + ['\''] + [' '] + rest;
      assert t[0] == ':' && t[1..][0] == ' ' && t[1] == ' ';
      if quoted {
        assert t[1..][1..] == Escape(v) + ['\''] + ([' '] + rest);
        EscapeReads(v, [' '] + rest, text + [':'] + [' '], done);
        WordEnds([' '] + rest, text + [':'] + [' '] + v, done);
      } else {
        WordEnds(t[1..], text + [':'], done);
      }
    } else {
      assert t[0] == x[0] && t[1..] == HeaderTail(x[1..], v, rest);
      assert HasQuote(x) <==> x[0] == '\'' || HasQuote(x[1..]);
      if quoted {
        NameCosts(x[1..], v, rest, if x[0] == '\'' then text else text + [x[0]], done, x[0] != '\'');
      } else if x[0] == '\\' {
        if |x| > 1 {
          assert t[1] == x[1] && t[2..] == HeaderTail(x[2..], v, rest);
          NameCosts(x[2..], v, rest, if x[1] == '\n' then text else text + [x[1]], done, false);
        } else {
          assert t == "\\: " + Escape(v) + ['\''] + [' '] + rest;
          assert t[1] == ':' && t[2..][0] == ' ';
          WordEnds(t[2..], text + [':'], done);
        }
      } else if x[0] == '\'' {
        NameCosts(x[1..], v, rest, text, done, true);
      } else if IsBlank(x[0]) {
        WordEnds(t, text, done);
      } else if IsPlain(x[0]) {
        NameCosts(x[1..], v, rest, text + [x[0]], done, false);
      }
    }
  }
}
