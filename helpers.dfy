/**
 * The text helpers of lib/helpers.js: `sanitizeEpisode` makes an episode title usable as a file
 * name, `sanitizeContent` escapes and flattens a text through an ordered chain of global
 * replacements, and `parseResponse` recognises Telegram's "request entity too large" answer.
 */
module Helpers {
  import opened JsString

  /** `sanitizeEpisode`: every `/` becomes `-`, then the white space at both ends is removed. */
  function SanitizeEpisode(episodeTitle: string): (r: string)
    ensures forall c :: c in r ==> c != '/' && c in episodeTitle + "-"
  {
    ReplaceAllChars(episodeTitle, {'/'}, "-");
    Trim(ReplaceAll(episodeTitle, {'/'}, "-"))
  }

  /** The result is the trimmed title with each `/` replaced by `-` in its place. */
  lemma SanitizeEpisodeReplacesSlashes(episodeTitle: string)
    ensures var t := ReplaceAll(episodeTitle, {'/'}, "-");
      SanitizeEpisode(episodeTitle) == Trim(t) && |t| == |episodeTitle| &&
      forall k :: 0 <= k < |t| ==> t[k] == (if episodeTitle[k] == '/' then '-' else episodeTitle[k])
  {
    ReplaceAllPointwise(episodeTitle, {'/'}, "-");
  }

  /** Sanitising a sanitised title changes nothing. */
  lemma SanitizeEpisodeIdempotent(episodeTitle: string)
    ensures SanitizeEpisode(SanitizeEpisode(episodeTitle)) == SanitizeEpisode(episodeTitle)
  {
    var r := SanitizeEpisode(episodeTitle);
    ReplaceAllUntouched(r, {'/'}, "-");
    TrimIdempotent(ReplaceAll(episodeTitle, {'/'}, "-"));
  }

  // ---------------------------------------------------------------------------------------------
  // sanitizeContent
  // ---------------------------------------------------------------------------------------------

  /** One `.replace(/x/gi, repl)` of the chain: the characters the pattern matches and the replacement. */
  datatype Pass = Pass(pats: set<char>, repl: string)

  /** The eleven replacements of `sanitizeContent`, in the order they are chained. The `i` flag makes
      each accented vowel match its upper-case form too. */
  const ContentPasses: seq<Pass> := [
    Pass({'"'}, "&quot;"),
    Pass({'&'}, "&amp;"),
    Pass({'<'}, "&lt;"),
    Pass({'>'}, "&gt;"),
    Pass({'\''}, ""),
    Pass({' '}, "_"),
    Pass({'á', 'Á'}, "a"),
    Pass({'é', 'É'}, "e"),
    Pass({'í', 'Í'}, "i"),
    Pass({'ó', 'Ó'}, "o"),
    Pass({'ú', 'Ú'}, "u")
  ]

  /** The passes applied one after the other. */
  function ApplyPasses(s: string, passes: seq<Pass>): string
    decreases |passes|
  {
    if passes == [] then s else ApplyPasses(ReplaceAll(s, passes[0].pats, passes[0].repl), passes[1..])
  }

  /** `sanitizeContent` for a string. */
  function SanitizeContent(str: string): string {
    ApplyPasses(str, ContentPasses)
  }

  /** The characters that never survive `sanitizeContent`. */
  function Removed(): set<char> {
    {'"', '<', '>', '\'', ' ', 'á', 'Á', 'é', 'É', 'í', 'Í', 'ó', 'Ó', 'ú', 'Ú'}
  }

  /** The characters some pass of `sanitizeContent` replaces. */
  function Special(): set<char> {
    Removed() + {'&'}
  }

  /** An independent description: what each character becomes when it goes through the chain alone.
      Because `&` is escaped after `"`, a `"` ends up as `&amp;quot;`. */
  function ContentChar(c: char): (r: string)
    ensures forall x :: x in r ==> x !in Removed()
  {
    if c == '"' then "&amp;quot;"
    else if c == '&' then "&amp;"
    else if c == '<' then "&lt;"
    else if c == '>' then "&gt;"
    else if c == '\'' then ""
    else if c == ' ' then "_"
    else if c == 'á' || c == 'Á' then "a"
    else if c == 'é' || c == 'É' then "e"
    else if c == 'í' || c == 'Í' then "i"
    else if c == 'ó' || c == 'Ó' then "o"
    else if c == 'ú' || c == 'Ú' then "u"
    else [c]
  }

  /** The text with every character replaced by what it becomes. */
  function MapContent(s: string): (r: string)
    ensures forall x :: x in r ==> x !in Removed()
    ensures (forall k :: 0 <= k < |s| ==> s[k] !in Special()) ==> r == s
  {
    if s == [] then [] else ContentChar(s[0]) + MapContent(s[1..])
  }

  /** Every pass works character by character, so the chain distributes over concatenation. */
  lemma {:induction false} ApplyPassesConcat(a: string, b: string, passes: seq<Pass>)
    ensures ApplyPasses(a + b, passes) == ApplyPasses(a, passes) + ApplyPasses(b, passes)
    decreases |passes|
  {
    if passes != [] {
      var p := passes[0];
      ReplaceAllConcat(a, b, p.pats, p.repl);
      ApplyPassesConcat(ReplaceAll(a, p.pats, p.repl), ReplaceAll(b, p.pats, p.repl), passes[1..]);
    }
  }

  /** Passes whose patterns do not occur in a text leave it as it is. */
  lemma {:induction false} ApplyPassesUntouched(s: string, passes: seq<Pass>)
    requires forall i, c :: 0 <= i < |passes| && c in s ==> c !in passes[i].pats
    ensures ApplyPasses(s, passes) == s
    decreases |passes|
  {
    if passes != [] {
      ReplaceAllUntouched(s, passes[0].pats, passes[0].repl);
      ApplyPassesUntouched(s, passes[1..]);
    }
  }

  /** A character no pass matches goes through the chain unchanged; one that pass `k` matches first
      becomes that pass's replacement, provided the later passes leave the replacement alone. */
  lemma {:induction false} ApplyPassesToChar(c: char, passes: seq<Pass>, k: nat)
    requires k <= |passes|
    requires forall j :: 0 <= j < k ==> c !in passes[j].pats
    requires k < |passes| ==> c in passes[k].pats
    requires k < |passes| ==> forall i, x :: k < i < |passes| && x in passes[k].repl ==> x !in passes[i].pats
    ensures ApplyPasses([c], passes) == if k < |passes| then passes[k].repl else [c]
    decreases k
  {
    if passes != [] {
      var p := passes[0];
      if k == 0 {
        ReplaceAllSingle(c, p.pats, p.repl);
        forall i, x | 0 <= i < |passes| - 1 && x in p.repl
          ensures x !in passes[1..][i].pats
        {
          assert passes[1..][i] == passes[i + 1];
        }
        ApplyPassesUntouched(p.repl, passes[1..]);
      } else {
        ReplaceAllSingle(c, p.pats, p.repl);
        ApplyPassesToChar(c, passes[1..], k - 1);
      }
    }
  }

  /** The pass that first matches a special character. */
  function FirstPass(c: char): (k: nat)
    requires c in Special()
    ensures k < |ContentPasses| && c in ContentPasses[k].pats
    ensures forall j :: 0 <= j < k ==> c !in ContentPasses[j].pats
  {
    if c == '"' then 0 else if c == '&' then 1 else if c == '<' then 2 else if c == '>' then 3
    else if c == '\'' then 4 else if c == ' ' then 5 else if c == 'á' || c == 'Á' then 6
    else if c == 'é' || c == 'É' then 7 else if c == 'í' || c == 'Í' then 8
    else if c == 'ó' || c == 'Ó' then 9 else 10
  }

  /** The replacements of the passes after the first contain only `&`, `;`, `_` and lower-case
      letters, which no later pass matches. */
  lemma LaterPassesKeepReplacement(k: nat)
    requires 1 <= k < |ContentPasses|
    ensures forall i, x :: k < i < |ContentPasses| && x in ContentPasses[k].repl ==> x !in ContentPasses[i].pats
  {
    var P := ContentPasses;
    forall i, x | k < i < |P| && x in P[k].repl
      ensures x !in P[i].pats
    {
      assert x == '&' || x == ';' || x == '_' || 'a' <= x <= 'z';
    }
  }

  /** One character goes through the chain as `ContentChar` says. */
  lemma SanitizeContentChar(c: char)
    ensures SanitizeContent([c]) == ContentChar(c)
  {
    if c == '"' {
      SanitizeQuote(c);
    } else if c in Special() {
      SanitizeSpecial(c);
    } else {
      SanitizePlain(c);
    }
  }

  /** Any other character is kept. */
  lemma SanitizePlain(c: char)
    requires c !in Special()
    ensures SanitizeContent([c]) == ContentChar(c)
  {
    PlainCharKept(c);
    PlainCharUnmatched(c);
    ApplyPassesToChar(c, ContentPasses, |ContentPasses|);
  }

  lemma PlainCharKept(c: char)
    requires c !in Special()
    ensures ContentChar(c) == [c]
  {
  }

  lemma PlainCharUnmatched(c: char)
    requires c !in Special()
    ensures forall j :: 0 <= j < |ContentPasses| ==> c !in ContentPasses[j].pats
  {
  }

  /** Every special character but `"` becomes the replacement of the first pass that matches it. */
  lemma SanitizeSpecial(c: char)
    requires c in Special() && c != '"'
    ensures SanitizeContent([c]) == ContentChar(c)
  {
    var k := FirstPass(c);
    LaterPassesKeepReplacement(k);
    ApplyPassesToChar(c, ContentPasses, k);
    FirstPassReplacement(c);
  }

  lemma FirstPassReplacement(c: char)
    requires c in Special() && c != '"'
    ensures ContentPasses[FirstPass(c)].repl == ContentChar(c)
  {
  }

  /** The `"` pass gives `&quot;`, whose `&` the next pass escapes; nothing later applies. */
  lemma SanitizeQuote(c: char)
    requires c == '"'
    ensures SanitizeContent([c]) == ContentChar(c)
  {
    var P := ContentPasses;
    var amp, rest := '&', "quot;";
    QuoteFirstPass(c, P[0], [amp] + rest);
    assert SanitizeContent([c]) == ApplyPasses([amp] + rest, P[1..]);
    QuoteLaterPasses(amp, rest, P[1..]);
  }

  lemma QuoteFirstPass(c: char, p: Pass, r: string)
    requires c == '"' && p == ContentPasses[0] && r == "&quot;"
    ensures ReplaceAll([c], p.pats, p.repl) == r
  {
    ReplaceAllSingle(c, p.pats, p.repl);
  }

  lemma QuoteLaterPasses(amp: char, rest: string, passes: seq<Pass>)
    requires amp == '&' && rest == "quot;" && passes == ContentPasses[1..]
    ensures ApplyPasses([amp] + rest, passes) == "&amp;quot;"
  {
    ApplyPassesConcat([amp], rest, passes);
    AmpLaterPasses(amp, passes);
    QuotLaterPasses(rest, passes);
  }

  lemma AmpLaterPasses(amp: char, passes: seq<Pass>)
    requires amp == '&' && passes == ContentPasses[1..]
    ensures ApplyPasses([amp], passes) == "&amp;"
  {
    LaterPassesKeepReplacement(1);
    forall i, x | 0 < i < |passes| && x in passes[0].repl
      ensures x !in passes[i].pats
    {
      assert passes[i] == ContentPasses[i + 1] && passes[0] == ContentPasses[1];
    }
    ApplyPassesToChar(amp, passes, 0);
  }

  lemma QuotLaterPasses(rest: string, passes: seq<Pass>)
    requires rest == "quot;" && passes == ContentPasses[1..]
    ensures ApplyPasses(rest, passes) == rest
  {
    forall i, c | 0 <= i < |passes| && c in rest
      ensures c !in passes[i].pats
    {
      assert passes[i] == ContentPasses[i + 1];
      assert 'a' <= c <= 'z' || c == ';';
    }
    ApplyPassesUntouched(rest, passes);
  }

  /** The chain of replacements is the character-by-character description. */
  lemma SanitizeContentIsPerCharacter(s: string)
    ensures SanitizeContent(s) == MapContent(s)
  {
    forall c: char
      ensures ApplyPasses([c], ContentPasses) == ContentChar(c)
    {
      SanitizeContentChar(c);
    }
    PassesPerCharacter(s, ContentPasses);
  }

  /** Passes that treat every single character as `ContentChar` does treat every text as `MapContent`
      does. */
  lemma {:induction false} PassesPerCharacter(s: string, passes: seq<Pass>)
    requires forall c: char :: ApplyPasses([c], passes) == ContentChar(c)
    ensures ApplyPasses(s, passes) == MapContent(s)
  {
    if s == [] {
      ApplyPassesUntouched(s, passes);
    } else {
      assert s == [s[0]] + s[1..];
      assert ApplyPasses([s[0]], passes) == ContentChar(s[0]);
      ApplyPassesConcat([s[0]], s[1..], passes);
      PassesPerCharacter(s[1..], passes);
    }
  }

  /** No double quote, single quote, angle bracket, space or accented vowel (of either case) is left. */
  lemma SanitizeContentRemoves(s: string)
    ensures forall c :: c in SanitizeContent(s) ==> c !in Removed()
  {
    SanitizeContentIsPerCharacter(s);
  }

  /** A text with none of the special characters is left as it is. */
  lemma SanitizeContentIdentity(s: string)
    requires forall k :: 0 <= k < |s| ==> s[k] !in Special()
    ensures SanitizeContent(s) == s
  {
    SanitizeContentIsPerCharacter(s);
  }

  /** Order matters: a double quote is escaped twice, because the `&` pass runs after the `"` pass. */
  lemma QuoteEscapedTwice(quote: char)
    requires quote == '"'
    ensures SanitizeContent([quote]) == "&amp;quot;"
  {
    SanitizeQuote(quote);
  }

  /** A `<` is escaped once: no later pass touches `&lt;`. */
  lemma LessThanEscapedOnce(lt: char)
    requires lt == '<'
    ensures SanitizeContent([lt]) == "&lt;"
  {
    SanitizeSpecial(lt);
  }

  // ---------------------------------------------------------------------------------------------
  // parseResponse
  // ---------------------------------------------------------------------------------------------

  const TooLargeMarker: string := "413_Request_Entity_Too_Large"

  /** `parseResponse`: "file_too_large" exactly when the response mentions the 413 marker, "" otherwise. */
  function ParseResponse(response: string): (r: string)
    ensures r == "file_too_large" <==> Contains(response, TooLargeMarker)
    ensures r == "" <==> !Contains(response, TooLargeMarker)
  {
    var result := "";
    if IndexOf(response, TooLargeMarker) > -1 then "file_too_large" else result
  }
}
