/**
 The curl printer of apix-vscode/src/trafficFormats.ts against a shell that splits words
 by the quoting rules of sections 2.2.2 and 2.2.3 of the POSIX Shell Command Language.
 */
module CurlCommand {
  import opened Text
  import opened Wrappers

  // The printer.

  const QUOTE := '\''
  const ESCAPED_QUOTE := "'\"'\"'"

  function Escape(value: string): string {
    if value == "" then ""
    else (if value[0] == QUOTE then ESCAPED_QUOTE else [value[0]]) + Escape(value[1..])
  }

  function ShellQuote(value: string): string {
    [QUOTE] + Escape(value) + [QUOTE]
  }

  /** The header names come in the order of the locale's sort. */
  datatype HttpRequest = HttpRequest(
    verb: string, url: string, names: seq<string>, headers: map<string, string>, body: string)
  {
    predicate Valid() {
      forall n | n in names :: n in headers
    }
  }

  /** An argument, printed as it is or quoted. */
  datatype Arg = Plain(word: string) | Quoted(word: string)

  function Printed(a: Arg): string {
    if a.Plain? then a.word else ShellQuote(a.word)
  }

  predicate NamesMethod(verb: string) {
    verb != "" && ToUpper(verb) != "GET"
  }

  function MethodArgs(verb: string): seq<Arg> {
    if NamesMethod(verb) then [Plain("-X"), Plain(ToUpper(verb))] else []
  }

  function HeaderArgs(names: seq<string>, headers: map<string, string>): seq<Arg>
    requires forall n | n in names :: n in headers
  {
    if names == [] then []
    else
      var last := names[|names| - 1];
      HeaderArgs(names[..|names| - 1], headers) +
      if ToLower(last) == "content-length" then [] else [Plain("-H"), Quoted(last + ": " + headers[last])]
  }

  function BodyArgs(body: string): seq<Arg> {
    if body == "" then [] else [Plain("--data-raw"), Quoted(body)]
  }

  /** The command that is meant: curl and its arguments. */
  function Intended(req: HttpRequest): seq<Arg>
    requires req.Valid()
  {
    [Plain("curl")] + MethodArgs(req.verb) + HeaderArgs(req.names, req.headers) + BodyArgs(req.body) + [Quoted(req.url)]
  }

  function AllPrinted(args: seq<Arg>): seq<string> {
    if args == [] then [] else [Printed(args[0])] + AllPrinted(args[1..])
  }

  function Words(args: seq<Arg>): seq<string> {
    if args == [] then [] else [args[0].word] + Words(args[1..])
  }

  function Join(parts: seq<string>): string {
    if parts == [] then ""
    else if |parts| == 1 then parts[0]
    else parts[0] + " " + Join(parts[1..])
  }

  lemma {:induction false} PrintedAppend(a: seq<Arg>, b: seq<Arg>)
    ensures AllPrinted(a + b) == AllPrinted(a) + AllPrinted(b)
  {
    if a == [] {
      assert a + b == b;
    } else {
      assert (a + b)[1..] == a[1..] + b;
      PrintedAppend(a[1..], b);
    }
  }

  lemma PrintedOne(a: Arg)
    ensures AllPrinted([a]) == [Printed(a)] && Words([a]) == [a.word]
  {
    assert [a][1..] == [];
    assert AllPrinted([]) == [] && Words([]) == [];
  }

  lemma PrintedTwo(a: Arg, b: Arg)
    ensures AllPrinted([a, b]) == [Printed(a), Printed(b)]
  {
    PrintedAppend([a], [b]);
    PrintedOne(a);
    PrintedOne(b);
    assert [a, b] == [a] + [b];
  }

  method HeaderParts(names: seq<string>, headers: map<string, string>) returns (parts: seq<string>)
    requires forall n | n in names :: n in headers
    ensures parts == AllPrinted(HeaderArgs(names, headers))
  {
    parts := [];
    for i := 0 to |names|
      invariant parts == AllPrinted(HeaderArgs(names[..i], headers))
    {
      var name := names[i];
      assert names[..i + 1][..i] == names[..i] && names[..i + 1][i] == name;
      assert HeaderArgs(names[..i], headers) + [] == HeaderArgs(names[..i], headers);
      if ToLower(name) != "content-length" {
        var quoted := Quoted(name + ": " + headers[name]);
        PrintedAppend(HeaderArgs(names[..i], headers), [Plain("-H"), quoted]);
        PrintedTwo(Plain("-H"), quoted);
        parts := parts + ["-H", ShellQuote(name + ": " + headers[name])];
      }
    }
    assert names[..|names|] == names;
  }

  method BuildCurlCommand(req: HttpRequest) returns (command: string)
    requires req.Valid()
    ensures command == Join(AllPrinted(Intended(req)))
  {
    var parts := ["curl"];
    PrintedOne(Plain("curl"));
    if req.verb != "" && ToUpper(req.verb) != "GET" {
      PrintedTwo(Plain("-X"), Plain(ToUpper(req.verb)));
      parts := parts + ["-X", ToUpper(req.verb)];
    }
    ghost var args := [Plain("curl")] + MethodArgs(req.verb);
    PrintedAppend([Plain("curl")], MethodArgs(req.verb));
    assert parts == AllPrinted(args);

    var headers := HeaderParts(req.names, req.headers);
    parts := parts + headers;
    PrintedAppend(args, HeaderArgs(req.names, req.headers));
    args := args + HeaderArgs(req.names, req.headers);
    assert parts == AllPrinted(args);

    if req.body != "" {
      PrintedTwo(Plain("--data-raw"), Quoted(req.body));
      parts := parts + ["--data-raw", ShellQuote(req.body)];
    }
    PrintedAppend(args, BodyArgs(req.body));
    args := args + BodyArgs(req.body);
    assert parts == AllPrinted(args);

    PrintedOne(Quoted(req.url));
    PrintedAppend(args, [Quoted(req.url)]);
    command := Join(parts + [ShellQuote(req.url)]);
  }

  // The shell.

  /** Between words, in the unquoted part of a word, or inside quotes. */
  datatype Mode = Between | Unquoted | Single | Double

  predicate IsBlank(c: char) {
    c == ' ' || c == '\t'
  }

  /** Characters that, unquoted, are operators, expansions or patterns. */
  predicate IsSpecial(c: char) {
    c in "|&;<>()$`\\*?[\n"
  }

  /** Also special at the start of a word: a comment or a tilde expansion. */
  predicate IsSpecialAtStart(c: char) {
    c in "#~"
  }

  /**
   The words of a command line, `word` being the one under way. `None` when the text leaves
   a quote open or anything to the shell but splitting and quote removal.
   */
  function Split(s: string, mode: Mode, word: string): Option<seq<string>>
    decreases |s|, 0
  {
    if s == "" then
      match mode
      case Between => Some([])
      case Unquoted => Some([word])
      case _ => None
    else
      var c, rest := s[0], s[1..];
      match mode
      case Between => if IsBlank(c) then Split(rest, Between, "") else SplitUnquoted(c, rest, Between, "")
      case Unquoted =>
        if !IsBlank(c) then SplitUnquoted(c, rest, Unquoted, word)
        else
          var others := Split(rest, Between, "");
          if others.None? then None else Some([word] + others.value)
      case Single => if c == QUOTE then Split(rest, Unquoted, word) else Split(rest, Single, word + [c])
      case Double =>
        if c == '"' then Split(rest, Unquoted, word)
        else if c in "$`\\" then None
        else Split(rest, Double, word + [c])
  }

  /** An unquoted character that is not a blank. */
  function SplitUnquoted(c: char, rest: string, mode: Mode, word: string): Option<seq<string>>
    decreases |rest|, 1
  {
    if c == QUOTE then Split(rest, Single, word)
    else if c == '"' then Split(rest, Double, word)
    else if IsSpecial(c) || (mode.Between? && IsSpecialAtStart(c)) then None
    else Split(rest, Unquoted, word + [c])
  }

  function Tokens(command: string): Option<seq<string>> {
    Split(command, Between, "")
  }

  // Quoting is undone.

  lemma Cons(c: char, s: string, t: string)
    ensures ([c] + s + t)[0] == c && ([c] + s + t)[1..] == s + t
  {
  }

  lemma EscapedQuote(rest: string, word: string)
    ensures Split(ESCAPED_QUOTE + rest, Single, word) == Split(rest, Single, word + [QUOTE])
  {
    var s := ESCAPED_QUOTE + rest;
    assert s[0] == QUOTE && s[1] == '"' && s[2] == QUOTE && s[3] == '"' && s[4] == QUOTE;
    assert s[1..][0] == '"' && s[2..][0] == QUOTE && s[3..][0] == '"' && s[4..][0] == QUOTE;
    assert s[1..][1..] == s[2..] && s[2..][1..] == s[3..] && s[3..][1..] == s[4..] && s[4..][1..] == rest;
    assert Split(s, Single, word) == Split(s[1..], Unquoted, word);
    assert Split(s[1..], Unquoted, word) == Split(s[2..], Double, word);
    assert Split(s[2..], Double, word) == Split(s[3..], Double, word + [QUOTE]);
    assert Split(s[3..], Double, word + [QUOTE]) == Split(s[4..], Unquoted, word + [QUOTE]);
    assert Split(s[4..], Unquoted, word + [QUOTE]) == Split(rest, Single, word + [QUOTE]);
  }

  lemma {:induction false} EscapeUndone(value: string, rest: string, word: string)
    ensures Split(Escape(value) + [QUOTE] + rest, Single, word) == Split(rest, Unquoted, word + value)
    decreases |value|
  {
    if value == "" {
      Cons(QUOTE, "", rest);
      assert Escape(value) + [QUOTE] + rest == [QUOTE] + rest;
      assert word + value == word;
    } else {
      var tail := Escape(value[1..]) + [QUOTE] + rest;
      EscapeUndone(value[1..], rest, word + [value[0]]);
      assert word + [value[0]] + value[1..] == word + value;
      if value[0] == QUOTE {
        EscapedQuote(tail, word);
        assert Escape(value) + [QUOTE] + rest == ESCAPED_QUOTE + tail;
      } else {
        assert Escape(value) + [QUOTE] + rest == [value[0]] + tail;
        assert ([value[0]] + tail)[1..] == tail;
      }
    }
  }

  /** A quoted value is one word, whatever characters it has. */
  lemma QuotedIsOneWord(value: string, rest: string)
    ensures Split(ShellQuote(value) + rest, Between, "") == Split(rest, Unquoted, value)
  {
    EscapeUndone(value, rest, "");
    var inner := Escape(value) + [QUOTE] + rest;
    assert ShellQuote(value) + rest == [QUOTE] + inner;
    assert ([QUOTE] + inner)[1..] == inner;
    assert "" + value == value;
  }

  // Words that need no quotes.

  predicate IsPlainChar(c: char) {
    !IsBlank(c) && !IsSpecial(c) && c != QUOTE && c != '"'
  }

  ghost predicate PlainChars(s: string) {
    forall i | 0 <= i < |s| :: IsPlainChar(s[i])
  }

  ghost predicate PlainWord(s: string) {
    s != "" && PlainChars(s) && !IsSpecialAtStart(s[0])
  }

  lemma {:induction false} PlainContinues(s: string, rest: string, word: string)
    requires PlainChars(s)
    ensures Split(s + rest, Unquoted, word) == Split(rest, Unquoted, word + s)
    decreases |s|
  {
    if s == "" {
      assert s + rest == rest && word + s == word;
    } else {
      assert (s + rest)[1..] == s[1..] + rest;
      PlainContinues(s[1..], rest, word + [s[0]]);
      assert word + [s[0]] + s[1..] == word + s;
    }
  }

  lemma PlainIsOneWord(s: string, rest: string)
    requires PlainWord(s)
    ensures Split(s + rest, Between, "") == Split(rest, Unquoted, s)
  {
    assert (s + rest)[1..] == s[1..] + rest;
    PlainContinues(s[1..], rest, [s[0]]);
    assert [s[0]] + s[1..] == s;
    assert "" + [s[0]] == [s[0]];
  }

  ghost predicate Splittable(args: seq<Arg>) {
    forall i | 0 <= i < |args| && args[i].Plain? :: PlainWord(args[i].word)
  }

  lemma ArgIsOneWord(a: Arg, rest: string)
    requires a.Plain? ==> PlainWord(a.word)
    ensures Split(Printed(a) + rest, Between, "") == Split(rest, Unquoted, a.word)
  {
    if a.Plain? {
      PlainIsOneWord(a.word, rest);
    } else {
      QuotedIsOneWord(a.word, rest);
    }
  }

  lemma FirstOfSeveral(a: Arg, rest: string)
    requires a.Plain? ==> PlainWord(a.word)
    ensures
      var others := Split(rest, Between, "");
      Split(Printed(a) + " " + rest, Between, "") == if others.None? then None else Some([a.word] + others.value)
  {
    ArgIsOneWord(a, " " + rest);
    assert Printed(a) + (" " + rest) == Printed(a) + " " + rest;
    assert (" " + rest)[0] == ' ' && (" " + rest)[1..] == rest;
  }

  /** Splitting the printed arguments gives the arguments back. */
  lemma {:induction false} SplitJoined(args: seq<Arg>)
    requires Splittable(args)
    ensures Tokens(Join(AllPrinted(args))) == Some(Words(args))
    decreases |args|
  {
    if |args| == 1 {
      ArgIsOneWord(args[0], "");
      PrintedOne(args[0]);
      assert args == [args[0]];
      assert Printed(args[0]) + "" == Printed(args[0]);
    } else if |args| > 1 {
      var rest := AllPrinted(args[1..]);
      assert rest == [Printed(args[1])] + AllPrinted(args[1..][1..]);
      assert AllPrinted(args)[1..] == rest;
      assert forall i | 0 <= i < |args[1..]| :: args[1..][i] == args[i + 1];
      SplitJoined(args[1..]);
      FirstOfSeveral(args[0], Join(rest));
    }
  }

  // The method is not quoted.

  ghost predicate SafeMethod(verb: string) {
    NamesMethod(verb) ==> PlainWord(ToUpper(verb))
  }

  lemma ConstantsArePlain()
    ensures PlainWord("curl") && PlainWord("-X") && PlainWord("-H") && PlainWord("--data-raw")
  {
  }

  lemma SplittableAppend(a: seq<Arg>, b: seq<Arg>)
    requires Splittable(a) && Splittable(b)
    ensures Splittable(a + b)
  {
  }

  lemma {:induction false} HeadersSplittable(names: seq<string>, headers: map<string, string>)
    requires forall n | n in names :: n in headers
    ensures Splittable(HeaderArgs(names, headers))
  {
    if names != [] {
      var last := names[|names| - 1];
      HeadersSplittable(names[..|names| - 1], headers);
      ConstantsArePlain();
      var pair := [Plain("-H"), Quoted(last + ": " + headers[last])];
      assert Splittable(pair);
      SplittableAppend(HeaderArgs(names[..|names| - 1], headers), pair);
    }
  }

  /** The arguments after the method. */
  function Tail(req: HttpRequest): seq<Arg>
    requires req.Valid()
  {
    HeaderArgs(req.names, req.headers) + BodyArgs(req.body) + [Quoted(req.url)]
  }

  lemma TailSplittable(req: HttpRequest)
    requires req.Valid()
    ensures Splittable(Tail(req))
    ensures Intended(req) == [Plain("curl")] + MethodArgs(req.verb) + Tail(req)
  {
    HeadersSplittable(req.names, req.headers);
    ConstantsArePlain();
    SplittableAppend(HeaderArgs(req.names, req.headers), BodyArgs(req.body));
    SplittableAppend(HeaderArgs(req.names, req.headers) + BodyArgs(req.body), [Quoted(req.url)]);
  }

  /** Printing is undone for any URL, headers and body when the method is safe. */
  lemma SafeIsUndone(req: HttpRequest)
    requires req.Valid() && SafeMethod(req.verb)
    ensures Tokens(Join(AllPrinted(Intended(req)))) == Some(Words(Intended(req)))
  {
    TailSplittable(req);
    ConstantsArePlain();
    SplittableAppend([Plain("curl")], MethodArgs(req.verb));
    SplittableAppend([Plain("curl")] + MethodArgs(req.verb), Tail(req));
    SplitJoined(Intended(req));
  }

  // An unsafe method never comes back as it was.

  lemma {:induction false} WordGrows(s: string, mode: Mode, word: string)
    requires !mode.Between?
    ensures Split(s, mode, word).Some? ==> Split(s, mode, word).value != [] && word <= Split(s, mode, word).value[0]
    decreases |s|
  {
    if s != "" {
      var c, rest := s[0], s[1..];
      if mode.Single? || !IsBlank(c) {
        WordGrows(rest, Unquoted, word);
        WordGrows(rest, Single, word);
        WordGrows(rest, Double, word);
        WordGrows(rest, Single, word + [c]);
        WordGrows(rest, Unquoted, word + [c]);
        WordGrows(rest, Double, word + [c]);
      } else if mode.Double? {
        WordGrows(rest, Double, word + [c]);
      }
    }
  }

  /** The first word, if there is one, does not start with `prefix`. */
  ghost predicate Misses(words: Option<seq<string>>, prefix: string) {
    words.Some? ==> words.value != [] && !(prefix <= words.value[0])
  }

  lemma GrownMisses(s: string, mode: Mode, word: string, c: char)
    requires !mode.Between? && c != QUOTE
    ensures Misses(Split(s, mode, word + [c]), word + [QUOTE])
  {
    WordGrows(s, mode, word + [c]);
    var words := Split(s, mode, word + [c]);
    if words.Some? {
      assert words.value[0][|word|] == c;
    }
  }

  /** After an unquoted quote the word cannot go on with a quote of its own. */
  lemma {:induction false} QuoteIsLost(r: string, rest: string, mode: Mode, word: string)
    requires IsToken(r) && (mode.Unquoted? || mode.Single?)
    ensures Misses(Split(r + " " + rest, mode, word), word + [QUOTE])
    decreases |r|
  {
    var s := r + " " + rest;
    if r == "" {
      assert s[0] == ' ' && s[1..] == rest;
      if mode.Single? {
        GrownMisses(rest, Single, word, ' ');
      }
    } else {
      var c, more := r[0], r[1..] + " " + rest;
      assert s[0] == c && s[1..] == more;
      assert IsTokenChar(c);
      if c == QUOTE {
        QuoteIsLost(r[1..], rest, if mode.Single? then Unquoted else Single, word);
      } else {
        GrownMisses(more, mode, word, c);
      }
    }
  }

  ghost predicate Differs(words: Option<seq<string>>, word: string) {
    words.Some? ==> words.value != [] && words.value[0] != word
  }

  lemma MissesDiffers(words: Option<seq<string>>, prefix: string, more: string)
    requires Misses(words, prefix)
    ensures Differs(words, prefix + more)
  {
  }

  lemma TokenCharIs(c: char)
    requires IsTokenChar(c)
    ensures !IsBlank(c) && c != '"' && (IsPlainChar(c) || c == QUOTE || IsSpecial(c))
  {
  }

  /** What one token character does to an unquoted word. */
  lemma TokenStep(s: string, word: string)
    requires s != "" && IsTokenChar(s[0])
    ensures IsPlainChar(s[0]) ==> Split(s, Unquoted, word) == Split(s[1..], Unquoted, word + [s[0]])
    ensures s[0] == QUOTE ==> Split(s, Unquoted, word) == Split(s[1..], Single, word)
    ensures !IsPlainChar(s[0]) && s[0] != QUOTE ==> Split(s, Unquoted, word).None?
    ensures IsSpecialAtStart(s[0]) ==> Split(s, Between, "").None?
    ensures !IsSpecialAtStart(s[0]) ==> Split(s, Between, "") == Split(s, Unquoted, "")
  {
    TokenCharIs(s[0]);
  }

  lemma Tails(m: string)
    requires m != ""
    ensures PlainChars(m) <==> IsPlainChar(m[0]) && PlainChars(m[1..])
    ensures IsToken(m) ==> IsTokenChar(m[0]) && IsToken(m[1..])
  {
    assert m == [m[0]] + m[1..];
  }

  lemma Regroup(word: string, m: string)
    requires m != ""
    ensures word + [m[0]] + m[1..] == word + m
  {
  }

  lemma HeadAndTail(m: string, rest: string)
    requires m != ""
    ensures (m + " " + rest)[0] == m[0] && (m + " " + rest)[1..] == m[1..] + " " + rest
  {
  }

  lemma {:induction false} UnsafeWordAfter(m: string, rest: string, word: string)
    requires IsToken(m) && !PlainChars(m)
    ensures Differs(Split(m + " " + rest, Unquoted, word), word + m)
    decreases |m|
  {
    var s, c := m + " " + rest, m[0];
    Tails(m);
    HeadAndTail(m, rest);
    TokenStep(s, word);
    if IsPlainChar(c) {
      UnsafeWordAfter(m[1..], rest, word + [c]);
      Regroup(word, m);
    } else if c == QUOTE {
      QuoteIsLost(m[1..], rest, Single, word);
      MissesDiffers(Split(s, Unquoted, word), word + [QUOTE], m[1..]);
      Regroup(word, m);
    }
  }

  lemma UnsafeWord(m: string, rest: string)
    requires IsToken(m) && m != "" && !PlainWord(m)
    ensures Differs(Split(m + " " + rest, Between, ""), m)
  {
    var s := m + " " + rest;
    assert s[0] == m[0];
    TokenStep(s, "");
    if !IsSpecialAtStart(m[0]) {
      UnsafeWordAfter(m, rest, "");
      assert "" + m == m;
    }
  }

  lemma JoinCons(a: string, rest: seq<string>)
    requires rest != []
    ensures Join([a] + rest) == a + " " + Join(rest)
  {
    assert ([a] + rest)[1..] == rest;
  }

  lemma JoinTail(a: string, b: string, c: string, rest: seq<string>)
    requires rest != []
    ensures Join([a, b, c] + rest) == a + " " + (b + " " + (c + " " + Join(rest)))
  {
    JoinCons(c, rest);
    JoinCons(b, [c] + rest);
    JoinCons(a, [b] + ([c] + rest));
    assert [a] + ([b] + ([c] + rest)) == [a, b, c] + rest;
  }

  lemma UpperIsToken(verb: string)
    requires IsToken(verb)
    ensures IsToken(ToUpper(verb))
  {
    var m := ToUpper(verb);
    forall i | 0 <= i < |m| ensures IsTokenChar(m[i]) {
      assert IsTokenChar(verb[i]);
    }
  }

  lemma WordsOfHead(m: string, tail: seq<Arg>)
    ensures |Words([Plain("curl"), Plain("-X"), Plain(m)] + tail)| >= 3
    ensures Words([Plain("curl"), Plain("-X"), Plain(m)] + tail)[2] == m
  {
    var args := [Plain("curl"), Plain("-X"), Plain(m)] + tail;
    assert args[1..][0] == Plain("-X") && args[1..][1..][0] == Plain(m);
    assert Words(args) == ["curl"] + Words(args[1..]);
    assert Words(args[1..]) == ["-X"] + Words(args[1..][1..]);
    assert Words(args[1..][1..]) == [m] + Words(args[1..][1..][1..]);
  }

  /** The third word of a line that starts with two plain ones is the first of what follows. */
  lemma ThirdWord(line: string, m: string)
    requires Differs(Split(line, Between, ""), m)
    ensures
      var words := Tokens("curl" + " " + ("-X" + " " + line));
      words.Some? ==> |words.value| >= 3 && words.value[2] != m
  {
    ConstantsArePlain();
    FirstOfSeveral(Plain("-X"), line);
    FirstOfSeveral(Plain("curl"), "-X" + " " + line);
  }

  lemma UnsafeIsNotUndone(req: HttpRequest)
    requires req.Valid() && IsToken(req.verb) && !SafeMethod(req.verb)
    ensures Tokens(Join(AllPrinted(Intended(req)))) != Some(Words(Intended(req)))
  {
    var m, tail := ToUpper(req.verb), Tail(req);
    UpperIsToken(req.verb);
    TailSplittable(req);
    var head := [Plain("curl"), Plain("-X"), Plain(m)];
    assert Intended(req) == head + tail;
    HeadPrinted(m);
    PrintedAppend(head, tail);
    var rest := AllPrinted(tail);
    JoinTail("curl", "-X", m, rest);
    UnsafeWord(m, Join(rest));
    ThirdWord(m + " " + Join(rest), m);
    WordsOfHead(m, tail);
  }

  lemma HeadPrinted(m: string)
    ensures AllPrinted([Plain("curl"), Plain("-X"), Plain(m)]) == ["curl", "-X", m]
  {
    PrintedOne(Plain("curl"));
    PrintedTwo(Plain("-X"), Plain(m));
    PrintedAppend([Plain("curl")], [Plain("-X"), Plain(m)]);
    assert [Plain("curl")] + [Plain("-X"), Plain(m)] == [Plain("curl"), Plain("-X"), Plain(m)];
  }

  /** For every method of token characters: printing is undone exactly when the method is safe unquoted. */
  lemma UndoneIffSafe(req: HttpRequest)
    requires req.Valid() && IsToken(req.verb)
    ensures Tokens(Join(AllPrinted(Intended(req)))) == Some(Words(Intended(req))) <==> SafeMethod(req.verb)
  {
    if SafeMethod(req.verb) {
      SafeIsUndone(req);
    } else {
      UnsafeIsNotUndone(req);
    }
  }

  /** An ampersand is a token character, and the shell takes it as an operator. */
  lemma AmpersandIsLost(req: HttpRequest)
    requires req.Valid() && req.verb == "A&B"
    ensures Tokens(Join(AllPrinted(Intended(req)))) != Some(Words(Intended(req)))
  {
    var m := ToUpper(req.verb);
    assert m[1] == '&' && "GET"[1] == 'E' && IsSpecial('&');
    assert !PlainChars(m);
    UndoneIffSafe(req);
  }

  // What the command says.

  /** The header names that are sent: all but Content-Length, in any case. */
  function Kept(names: seq<string>): seq<string> {
    if names == [] then []
    else (if ToLower(names[0]) == "content-length" then [] else [names[0]]) + Kept(names[1..])
  }

  lemma {:induction false} KeptSnoc(names: seq<string>, last: string)
    ensures Kept(names + [last]) == Kept(names) + if ToLower(last) == "content-length" then [] else [last]
  {
    if names == [] {
      assert [last][1..] == [] && Kept([]) == [] && [] + [last] == [last];
    } else {
      assert (names + [last])[1..] == names[1..] + [last];
      KeptSnoc(names[1..], last);
    }
  }

  lemma {:induction false} HeaderCount(names: seq<string>, headers: map<string, string>)
    requires forall n | n in names :: n in headers
    ensures |HeaderArgs(names, headers)| == 2 * |Kept(names)|
    ensures forall n | n in Kept(names) :: n in names
  {
    if names != [] {
      var before, last := names[..|names| - 1], names[|names| - 1];
      assert names == before + [last];
      KeptSnoc(before, last);
      HeaderCount(before, headers);
    }
  }

  /** The header arguments are pairs of a flag and a field: the name, a colon, a space and the value. */
  lemma {:induction false} HeaderPairs(names: seq<string>, headers: map<string, string>, k: nat)
    requires (forall n | n in names :: n in headers) && k < |Kept(names)|
    ensures Kept(names)[k] in headers && |HeaderArgs(names, headers)| == 2 * |Kept(names)|
    ensures HeaderArgs(names, headers)[2 * k].word == "-H"
    ensures HeaderArgs(names, headers)[2 * k + 1].word == Kept(names)[k] + ": " + headers[Kept(names)[k]]
  {
    var before, last := names[..|names| - 1], names[|names| - 1];
    assert names == before + [last];
    KeptSnoc(before, last);
    HeaderCount(names, headers);
    HeaderCount(before, headers);
    if k < |Kept(before)| {
      HeaderPairs(before, headers, k);
    }
  }

  lemma {:induction false} WordsAppend(a: seq<Arg>, b: seq<Arg>)
    ensures Words(a + b) == Words(a) + Words(b)
  {
    if a == [] {
      assert a + b == b;
    } else {
      assert (a + b)[1..] == a[1..] + b;
      WordsAppend(a[1..], b);
    }
  }

  lemma WordsTwo(a: Arg, b: Arg)
    ensures Words([a, b]) == [a.word, b.word]
  {
    PrintedOne(a);
    PrintedOne(b);
    WordsAppend([a], [b]);
    assert [a] + [b] == [a, b];
  }

  /** The words the shell gets: curl, the method unless it is GET, the headers, the body unless it is empty, the URL. */
  lemma CommandSays(req: HttpRequest)
    requires req.Valid() && SafeMethod(req.verb)
    ensures Tokens(Join(AllPrinted(Intended(req)))) == Some(
      ["curl"]
      + (if req.verb != "" && ToUpper(req.verb) != "GET" then ["-X", ToUpper(req.verb)] else [])
      + Words(HeaderArgs(req.names, req.headers))
      + (if req.body != "" then ["--data-raw", req.body] else [])
      + [req.url])
  {
    SafeIsUndone(req);
    var m, h, b := MethodArgs(req.verb), HeaderArgs(req.names, req.headers), BodyArgs(req.body);
    PrintedOne(Plain("curl"));
    PrintedOne(Quoted(req.url));
    WordsTwo(Plain("-X"), Plain(ToUpper(req.verb)));
    WordsTwo(Plain("--data-raw"), Quoted(req.body));
    WordsAppend([Plain("curl")], m);
    WordsAppend([Plain("curl")] + m, h);
    WordsAppend([Plain("curl")] + m + h, b);
    WordsAppend([Plain("curl")] + m + h + b, [Quoted(req.url)]);
  }
}
