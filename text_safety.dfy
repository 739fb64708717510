/**
 * The string transforms of the shared utilities module: HTML escaping,
 * regular-expression escaping, the class-name joiner and the JSON-LD
 * guard against `</`.
 */
module TextSafety {
  import opened Wrappers
  import opened JsStrings

  // ---------------------------------------------------------------
  // sanitizeHTML
  // ---------------------------------------------------------------

  /** `s.replace(/c/g, rep)` for a one-character pattern `c`. */
  function ReplaceAllChar(s: string, c: char, rep: string): (r: string)
    ensures |rep| >= 1 ==> |r| >= |s|
    ensures c !in rep ==> c !in r
  {
    if s == [] then [] else (if s[0] == c then rep else [s[0]]) + ReplaceAllChar(s[1..], c, rep)
  }

  /** `sanitizeHTML` as written: five global replacements, ampersand first. */
  function SanitizeHTML(input: string): (r: string)
    ensures |r| >= |input|
  {
    var amp := ReplaceAllChar(input, '&', "&amp;");
    var lt := ReplaceAllChar(amp, '<', "&lt;");
    var gt := ReplaceAllChar(lt, '>', "&gt;");
    var quot := ReplaceAllChar(gt, '"', "&quot;");
    ReplaceAllChar(quot, '\'', "&#039;")
  }

  predicate IsHtmlSpecial(c: char) {
    c == '&' || c == '<' || c == '>' || c == '"' || c == '\''
  }

  /** The entity that stands for one character. */
  function EscapeHtmlChar(c: char): string {
    match c
    case '&' => "&amp;"
    case '<' => "&lt;"
    case '>' => "&gt;"
    case '"' => "&quot;"
    case '\'' => "&#039;"
    case _ => [c]
  }

  /** The reference definition: every character replaced by its entity, in one pass. */
  function EscapeHtml(s: string): string {
    if s == [] then [] else EscapeHtmlChar(s[0]) + EscapeHtml(s[1..])
  }

  lemma {:induction false} ReplaceAllCharAppend(a: string, b: string, c: char, rep: string)
    ensures ReplaceAllChar(a + b, c, rep) == ReplaceAllChar(a, c, rep) + ReplaceAllChar(b, c, rep)
  {
    if a != [] {
      ReplaceAllCharAppend(a[1..], b, c, rep);
      assert (a + b)[1..] == a[1..] + b;
    } else {
      assert a + b == b;
    }
  }

  lemma SanitizeAppend(a: string, b: string)
    ensures SanitizeHTML(a + b) == SanitizeHTML(a) + SanitizeHTML(b)
  {
    var a1, b1 := ReplaceAllChar(a, '&', "&amp;"), ReplaceAllChar(b, '&', "&amp;");
    ReplaceAllCharAppend(a, b, '&', "&amp;");
    var a2, b2 := ReplaceAllChar(a1, '<', "&lt;"), ReplaceAllChar(b1, '<', "&lt;");
    ReplaceAllCharAppend(a1, b1, '<', "&lt;");
    var a3, b3 := ReplaceAllChar(a2, '>', "&gt;"), ReplaceAllChar(b2, '>', "&gt;");
    ReplaceAllCharAppend(a2, b2, '>', "&gt;");
    var a4, b4 := ReplaceAllChar(a3, '"', "&quot;"), ReplaceAllChar(b3, '"', "&quot;");
    ReplaceAllCharAppend(a3, b3, '"', "&quot;");
    ReplaceAllCharAppend(a4, b4, '\'', "&#039;");
  }

  lemma {:induction false} ReplaceAbsent(s: string, c: char, rep: string)
    requires forall i :: 0 <= i < |s| ==> s[i] != c
    ensures ReplaceAllChar(s, c, rep) == s
  {
    if s != [] {
      ReplaceAbsent(s[1..], c, rep);
    }
  }

  lemma ReplaceSingle(c: char, d: char, rep: string)
    ensures ReplaceAllChar([c], d, rep) == if c == d then rep else [c]
  {
    assert [c][1..] == [];
  }

  /** On one character the five passes produce that character's entity: no later pass touches an earlier entity. */
  lemma SanitizeChar(c: char)
    ensures SanitizeHTML([c]) == EscapeHtmlChar(c)
  {
    ReplaceSingle(c, '&', "&amp;");
    if c == '&' {
      LaterPassesKeep("&amp;", 1);
    } else {
      ReplaceSingle(c, '<', "&lt;");
      if c == '<' {
        LaterPassesKeep("&lt;", 2);
      } else {
        ReplaceSingle(c, '>', "&gt;");
        if c == '>' {
          LaterPassesKeep("&gt;", 3);
        } else {
          ReplaceSingle(c, '"', "&quot;");
          if c == '"' {
            LaterPassesKeep("&quot;", 4);
          } else {
            ReplaceSingle(c, '\'', "&#039;");
          }
        }
      }
    }
  }

  /** The passes after the `k`-th leave the `k`-th pass's entity alone. */
  lemma LaterPassesKeep(e: string, k: nat)
    requires 1 <= k <= 4
    requires forall i :: 0 <= i < |e| ==> e[i] != '<' && e[i] != '>' && e[i] != '"' && e[i] != '\''
    ensures k <= 1 ==> ReplaceAllChar(e, '<', "&lt;") == e
    ensures k <= 2 ==> ReplaceAllChar(e, '>', "&gt;") == e
    ensures k <= 3 ==> ReplaceAllChar(e, '"', "&quot;") == e
    ensures ReplaceAllChar(e, '\'', "&#039;") == e
  {
    ReplaceAbsent(e, '<', "&lt;");
    ReplaceAbsent(e, '>', "&gt;");
    ReplaceAbsent(e, '"', "&quot;");
    ReplaceAbsent(e, '\'', "&#039;");
  }

  /** The chained replacements equal the one-pass per-character map, because `&` is replaced first. */
  lemma {:induction false} SanitizeIsCharMap(s: string)
    ensures SanitizeHTML(s) == EscapeHtml(s)
  {
    if s != [] {
      SanitizeIsCharMap(s[1..]);
      SanitizeAppend([s[0]], s[1..]);
      SanitizeChar(s[0]);
      assert [s[0]] + s[1..] == s;
    }
  }

  /** No `<`, `>`, `"` or `'` survives sanitizing. */
  lemma {:induction false} SanitizeHasNoMarkup(s: string)
    ensures forall i :: 0 <= i < |SanitizeHTML(s)| ==> !(SanitizeHTML(s)[i] in "<>\"'")
  {
    SanitizeIsCharMap(s);
    EscapeHtmlHasNoMarkup(s);
  }

  lemma {:induction false} EscapeHtmlHasNoMarkup(s: string)
    ensures forall i :: 0 <= i < |EscapeHtml(s)| ==> !(EscapeHtml(s)[i] in "<>\"'")
  {
    if s != [] {
      EscapeHtmlHasNoMarkup(s[1..]);
      var head := EscapeHtmlChar(s[0]);
      assert forall i :: 0 <= i < |head| ==> !(head[i] in "<>\"'");
      assert EscapeHtml(s) == head + EscapeHtml(s[1..]);
    }
  }

  /** Sanitizing leaves text without any of the five special characters as it is. */
  lemma {:induction false} SanitizeIdentity(s: string)
    requires forall i :: 0 <= i < |s| ==> !IsHtmlSpecial(s[i])
    ensures SanitizeHTML(s) == s
  {
    SanitizeIsCharMap(s);
    EscapeHtmlIdentity(s);
  }

  lemma {:induction false} EscapeHtmlIdentity(s: string)
    requires forall i :: 0 <= i < |s| ==> !IsHtmlSpecial(s[i])
    ensures EscapeHtml(s) == s
  {
    if s != [] {
      EscapeHtmlIdentity(s[1..]);
      assert [s[0]] + s[1..] == s;
    }
  }

  /** The character an entity at the start of `s` stands for, and the entity's length. */
  function LeadingEntity(s: string): Option<(char, nat)> {
    if StartsWith(s, "&amp;") then Some(('&', 5))
    else if StartsWith(s, "&lt;") then Some(('<', 4))
    else if StartsWith(s, "&gt;") then Some(('>', 4))
    else if StartsWith(s, "&quot;") then Some(('"', 6))
    else if StartsWith(s, "&#039;") then Some(('\'', 6))
    else None
  }

  /** Decoding the five entities, the partner of EscapeHtml. */
  function UnescapeHtml(s: string): string
    decreases |s|
  {
    if s == [] then []
    else if s[0] != '&' then [s[0]] + UnescapeHtml(s[1..])
    else match LeadingEntity(s)
      case Some((c, n)) => assert StartsWith(s, EscapeHtmlChar(c)); [c] + UnescapeHtml(s[n..])
      case None => [s[0]] + UnescapeHtml(s[1..])
  }

  /** Sanitizing loses nothing: decoding the entities gives back the input. */
  lemma {:induction false} SanitizeRoundTrip(s: string)
    ensures UnescapeHtml(SanitizeHTML(s)) == s
  {
    SanitizeIsCharMap(s);
    EscapeRoundTrip(s);
  }

  lemma {:induction false} EscapeRoundTrip(s: string)
    ensures UnescapeHtml(EscapeHtml(s)) == s
  {
    if s != [] {
      EscapeRoundTrip(s[1..]);
      UnescapeEntity(s[0], EscapeHtml(s[1..]));
      assert [s[0]] + s[1..] == s;
    }
  }

  /** Decoding consumes the entity of one character and nothing after it. */
  lemma UnescapeEntity(c: char, tail: string)
    ensures UnescapeHtml(EscapeHtmlChar(c) + tail) == [c] + UnescapeHtml(tail)
  {
    var e := EscapeHtmlChar(c);
    var t := e + tail;
    if !IsHtmlSpecial(c) {
      assert t[0] != '&' && t[1..] == tail;
    } else {
      assert t[|e|..] == tail;
      EntityLeads(c, tail);
    }
  }

  lemma EntityLeads(c: char, tail: string)
    requires IsHtmlSpecial(c)
    ensures LeadingEntity(EscapeHtmlChar(c) + tail) == Some((c, |EscapeHtmlChar(c)|))
  {
    var e := EscapeHtmlChar(c);
    var t := e + tail;
    assert t[..|e|] == e;
    assert t[0] == '&' && t[1] == e[1];
    if c == '&' {
    } else if c == '<' {
      assert !StartsWith(t, "&amp;") by { assert t[1] == 'l'; }
    } else if c == '>' {
      assert !StartsWith(t, "&amp;") && !StartsWith(t, "&lt;") by { assert t[1] == 'g'; }
    } else if c == '"' {
      assert !StartsWith(t, "&amp;") && !StartsWith(t, "&lt;") && !StartsWith(t, "&gt;") by { assert t[1] == 'q'; }
    } else {
      assert !StartsWith(t, "&amp;") && !StartsWith(t, "&lt;") && !StartsWith(t, "&gt;")
        && !StartsWith(t, "&quot;") by { assert t[1] == '#'; }
    }
  }

  /** The example of the shared-utilities tests. */
  lemma SanitizeExample(s: string)
    requires s == "Hello <b>world</b>"
    ensures SanitizeHTML(s) == "Hello &lt;b&gt;world&lt;/b&gt;"
  {
    SanitizeIsCharMap(s);
    ExamplePieces();
    EscapeTagged("Hello ", "<b>", "world", "</b>");
  }

  lemma ExamplePieces()
    ensures "Hello " + "<b>" + "world" + "</b>" == "Hello <b>world</b>"
    ensures "Hello " + "&lt;b&gt;" + "world" + "&lt;/b&gt;" == "Hello &lt;b&gt;world&lt;/b&gt;"
  {
  }

  lemma EscapeTagged(hello: string, open: string, world: string, close: string)
    requires hello == "Hello " && open == "<b>" && world == "world" && close == "</b>"
    ensures EscapeHtml(hello + open + world + close) == hello + "&lt;b&gt;" + world + "&lt;/b&gt;"
  {
    EscapeHtmlIdentity(hello);
    EscapeHtmlIdentity(world);
    EscapeOpenTag();
    EscapeCloseTag();
    EscapeAppend(hello, open);
    EscapeAppend(hello + open, world);
    EscapeAppend(hello + open + world, close);
  }

  lemma EscapeOpenTag()
    ensures EscapeHtml("<b>") == "&lt;b&gt;"
  {
    var s := "<b>";
    assert s[1..] == "b>" && s[1..][1..] == ">" && s[1..][1..][1..] == [];
  }

  lemma EscapeCloseTag()
    ensures EscapeHtml("</b>") == "&lt;/b&gt;"
  {
    var s := "</b>";
    assert s[1..] == "/b>";
    EscapeOpenTag();
    assert EscapeHtml("/b>") == "/b&gt;" by {
      assert "/b>"[1..] == "b>" && "b>"[1..] == ">" && ">"[1..] == [];
    }
  }

  lemma {:induction false} EscapeAppend(a: string, b: string)
    ensures EscapeHtml(a + b) == EscapeHtml(a) + EscapeHtml(b)
  {
    if a == [] {
      assert a + b == b;
    } else {
      assert (a + b)[0] == a[0] && (a + b)[1..] == a[1..] + b;
      EscapeAppend(a[1..], b);
    }
  }

  // ---------------------------------------------------------------
  // escapeRegex
  // ---------------------------------------------------------------

  /** The characters of the class `[.*+?^${}()|[\]\\]`. */
  predicate IsRegexMeta(c: char) {
    c == '.' || c == '*' || c == '+' || c == '?' || c == '^' || c == '$' || c == '{' || c == '}'
    || c == '(' || c == ')' || c == '|' || c == '[' || c == ']' || c == '\\'
  }

  /** `str.replace(/[.*+?^${}()|[\]\\]/g, '\\$&')`: a backslash before every metacharacter. */
  function EscapeRegex(s: string): (r: string)
    ensures |r| == |s| + CountMeta(s)
  {
    if s == [] then []
    else (if IsRegexMeta(s[0]) then ['\\', s[0]] else [s[0]]) + EscapeRegex(s[1..])
  }

  function CountMeta(s: string): nat {
    if s == [] then 0 else (if IsRegexMeta(s[0]) then 1 else 0) + CountMeta(s[1..])
  }

  /** Dropping the backslash in front of each escaped metacharacter, the partner of EscapeRegex. */
  function UnescapeRegex(t: string): string
    decreases |t|
  {
    if t == [] then []
    else if |t| >= 2 && t[0] == '\\' && IsRegexMeta(t[1]) then [t[1]] + UnescapeRegex(t[2..])
    else [t[0]] + UnescapeRegex(t[1..])
  }

  /** Escaping is reversible: removing the inserted backslashes recovers the input exactly. */
  lemma {:induction false} EscapeRegexRoundTrip(s: string)
    ensures UnescapeRegex(EscapeRegex(s)) == s
  {
    if s != [] {
      EscapeRegexRoundTrip(s[1..]);
      var t := EscapeRegex(s);
      var tail := EscapeRegex(s[1..]);
      if IsRegexMeta(s[0]) {
        assert t == ['\\', s[0]] + tail;
        assert t[2..] == tail;
      } else {
        assert t == [s[0]] + tail;
        assert t[1..] == tail;
      }
      assert [s[0]] + s[1..] == s;
    }
  }

  /** Every metacharacter of the output sits in a backslash pair, so the output has no bare metacharacter. */
  lemma {:induction false} EscapeRegexPairs(s: string)
    ensures forall i :: 0 <= i < |s| && IsRegexMeta(s[i]) ==>
              (exists j :: 0 <= j < |EscapeRegex(s)| - 1 && EscapeRegex(s)[j] == '\\' && EscapeRegex(s)[j + 1] == s[i])
  {
    if s != [] {
      EscapeRegexPairs(s[1..]);
      var head := if IsRegexMeta(s[0]) then ['\\', s[0]] else [s[0]];
      var tail := EscapeRegex(s[1..]);
      assert EscapeRegex(s) == head + tail;
      forall i | 0 <= i < |s| && IsRegexMeta(s[i])
        ensures exists j :: (0 <= j < |EscapeRegex(s)| - 1
                  && EscapeRegex(s)[j] == '\\' && EscapeRegex(s)[j + 1] == s[i])
      {
        if i == 0 {
          assert EscapeRegex(s)[0] == '\\' && EscapeRegex(s)[1] == s[0];
        } else {
          assert s[i] == s[1..][i - 1];
          var j :| 0 <= j < |tail| - 1 && tail[j] == '\\' && tail[j + 1] == s[1..][i - 1];
          assert EscapeRegex(s)[|head| + j] == '\\' && EscapeRegex(s)[|head| + j + 1] == s[i];
        }
      }
    }
  }

  /** The example of the acceptance tests: `test.+?` becomes `test\.\+\?`. */
  lemma EscapeRegexExample()
    ensures EscapeRegex("test.+?") == "test\\.\\+\\?"
  {
    var s := "test.+?";
    assert EscapeRegex(s[4..]) == "\\.\\+\\?" by {
      assert EscapeRegex(s[6..]) == "\\?" by { assert s[6..][1..] == []; }
      assert EscapeRegex(s[5..]) == "\\+\\?" by { assert s[5..][1..] == s[6..]; }
      assert s[4..][1..] == s[5..];
    }
    assert EscapeRegex(s[2..]) == "st\\.\\+\\?" by {
      assert EscapeRegex(s[3..]) == "t\\.\\+\\?" by { assert s[3..][1..] == s[4..]; }
      assert s[2..][1..] == s[3..];
    }
    assert EscapeRegex(s[1..]) == "est\\.\\+\\?" by { assert s[1..][1..] == s[2..]; }
  }

  // ---------------------------------------------------------------
  // classNames
  // ---------------------------------------------------------------

  /** One argument of `classNames`: a string, `false`, `null` or `undefined`. */
  datatype ClassArg = Str(s: string) | False | Null | Undefined

  /** What `filter(Boolean)` keeps: the strings that are not empty. */
  function KeptClasses(args: seq<ClassArg>): (kept: seq<string>)
    ensures |kept| <= |args|
    ensures forall k :: 0 <= k < |kept| ==> kept[k] != "" && Str(kept[k]) in args
    ensures forall a {:trigger a.s in kept} :: a in args && a.Str? && a.s != "" ==> a.s in kept
  {
    if args == [] then []
    else
      assert forall a :: a in args ==> a == args[0] || a in args[1..];
      (if args[0].Str? && args[0].s != "" then [args[0].s] else []) + KeptClasses(args[1..])
  }

  /** Filtering distributes over concatenation: each argument is kept or dropped on its own. */
  lemma {:induction false} KeptClassesAppend(a: seq<ClassArg>, b: seq<ClassArg>)
    ensures KeptClasses(a + b) == KeptClasses(a) + KeptClasses(b)
  {
    if a != [] {
      assert (a + b)[1..] == a[1..] + b;
      KeptClassesAppend(a[1..], b);
    } else {
      assert a + b == b;
    }
  }

  /** `classes.filter(Boolean).join(' ')`. */
  function ClassNames(args: seq<ClassArg>): (r: string)
    ensures r == "" <==> KeptClasses(args) == []
  {
    Join(KeptClasses(args), " ")
  }

  /** The result splits at its spaces into exactly the kept arguments, in order, when none of them holds a space. */
  lemma ClassNamesSplit(args: seq<ClassArg>)
    requires KeptClasses(args) != []
    requires forall k :: 0 <= k < |KeptClasses(args)| ==> ' ' !in KeptClasses(args)[k]
    ensures Split(ClassNames(args), ' ') == KeptClasses(args)
  {
    JoinThenSplit(KeptClasses(args), ' ');
  }

  /** The result is empty exactly when no argument is a non-empty string. */
  lemma {:induction false} ClassNamesEmpty(args: seq<ClassArg>)
    ensures ClassNames(args) == "" <==> forall a :: a in args ==> !(a.Str? && a.s != "")
  {
    var kept := KeptClasses(args);
    KeptAll(args);
    if |kept| >= 1 {
      assert Join(kept, " ") != "" by {
        if |kept| > 1 {
          assert Join(kept, " ") == kept[0] + " " + Join(kept[1..], " ");
        }
      }
    }
  }

  lemma {:induction false} KeptAll(args: seq<ClassArg>)
    ensures KeptClasses(args) == [] <==> forall a :: a in args ==> !(a.Str? && a.s != "")
  {
    if args != [] {
      KeptAll(args[1..]);
      assert forall a :: a in args ==> a == args[0] || a in args[1..];
    }
  }

  /** The example of the class-name helper: falsy values dropped, the rest joined by one space. */
  lemma ClassNamesExample(args: seq<ClassArg>)
    requires args == [Str("a"), False, Undefined, Null, Str("b"), Str("")]
    ensures ClassNames(args) == "a b"
  {
    KeptExample(args);
    JoinPair("a", "b", " ");
  }

  lemma JoinPair(a: string, b: string, sep: string)
    ensures Join([a, b], sep) == a + sep + b
  {
    assert [a, b][1..] == [b];
  }

  lemma KeptExample(args: seq<ClassArg>)
    requires args == [Str("a"), False, Undefined, Null, Str("b"), Str("")]
    ensures KeptClasses(args) == ["a", "b"]
  {
    assert KeptClasses(args[5..]) == [] by { assert args[5..][1..] == []; }
    assert KeptClasses(args[4..]) == ["b"] by { assert args[4..][1..] == args[5..]; }
    assert KeptClasses(args[3..]) == ["b"] by { assert args[3..][1..] == args[4..]; }
    assert KeptClasses(args[2..]) == ["b"] by { assert args[2..][1..] == args[3..]; }
    assert KeptClasses(args[1..]) == ["b"] by { assert args[1..][1..] == args[2..]; }
  }

  // ---------------------------------------------------------------
  // sanitizeForJsonLd
  // ---------------------------------------------------------------

  /** `</` starts at index `i` of `s`. */
  predicate CloseTagAt(s: string, i: int) {
    0 <= i < |s| - 1 && s[i] == '<' && s[i + 1] == '/'
  }

  /** `input.replace(/<\//g, '<\\/')`: every `</`, scanned left to right, becomes `<\/`. */
  function SanitizeForJsonLd(s: string): (r: string)
    ensures |r| == |s| + CloseTagCount(s)
    ensures s != [] ==> r != [] && r[0] == s[0]
    decreases |s|
  {
    if s == [] then []
    else if CloseTagAt(s, 0) then "<\\/" + SanitizeForJsonLd(s[2..])
    else [s[0]] + SanitizeForJsonLd(s[1..])
  }

  function CloseTagCount(s: string): nat
    decreases |s|
  {
    if s == [] then 0
    else if CloseTagAt(s, 0) then 1 + CloseTagCount(s[2..])
    else CloseTagCount(s[1..])
  }

  /** The output never contains `</`, so it cannot close the script element that embeds it. */
  lemma {:induction false} JsonLdHasNoCloseTag(s: string)
    ensures forall i :: !CloseTagAt(SanitizeForJsonLd(s), i)
    decreases |s|
  {
    var r := SanitizeForJsonLd(s);
    if s != [] {
      if CloseTagAt(s, 0) {
        var tail := SanitizeForJsonLd(s[2..]);
        JsonLdHasNoCloseTag(s[2..]);
        assert r == "<\\/" + tail;
        forall i ensures !CloseTagAt(r, i) {
          if i >= 3 {
            assert !CloseTagAt(tail, i - 3);
          }
        }
      } else {
        var tail := SanitizeForJsonLd(s[1..]);
        JsonLdHasNoCloseTag(s[1..]);
        assert r == [s[0]] + tail;
        forall i ensures !CloseTagAt(r, i) {
          if i >= 1 {
            assert !CloseTagAt(tail, i - 1);
          } else if i == 0 && |r| > 1 {
            assert r[1] == s[1];
          }
        }
      }
    }
  }

  /** Input without `</` passes through unchanged. */
  lemma {:induction false} JsonLdIdentity(s: string)
    requires forall i :: !CloseTagAt(s, i)
    ensures SanitizeForJsonLd(s) == s
    decreases |s|
  {
    if s != [] {
      assert !CloseTagAt(s, 0);
      forall i ensures !CloseTagAt(s[1..], i) {
        assert !CloseTagAt(s, i + 1);
      }
      JsonLdIdentity(s[1..]);
      assert [s[0]] + s[1..] == s;
    }
  }

  /** The reference definition: a backslash inserted after every `<` that a `/` follows. */
  function InsertBackslashes(s: string): string {
    if s == [] then []
    else (if CloseTagAt(s, 0) then "<\\" else [s[0]]) + InsertBackslashes(s[1..])
  }

  /** The left-to-right replacement equals the per-position insertion, since `</` cannot overlap itself. */
  lemma {:induction false} JsonLdIsInsertion(s: string)
    ensures SanitizeForJsonLd(s) == InsertBackslashes(s)
    decreases |s|
  {
    if s != [] {
      if CloseTagAt(s, 0) {
        JsonLdIsInsertion(s[2..]);
        assert s[1..][1..] == s[2..];
        assert !CloseTagAt(s[1..], 0);
        assert InsertBackslashes(s[1..]) == ['/'] + InsertBackslashes(s[2..]);
      } else {
        JsonLdIsInsertion(s[1..]);
      }
    }
  }

  /** The example of the acceptance tests. */
  lemma JsonLdExample()
    ensures SanitizeForJsonLd("</script>") == "<\\/script>"
  {
    var s := "</script>";
    assert CloseTagAt(s, 0);
    assert s[2..] == "script>";
    JsonLdIdentity("script>");
  }
}
