/**
 * The snippet machinery of `SearchResultSetsRenderer` (src/Renderer/SearchResultSetsRenderer.php):
 * the accent-folding table of `removeAccents`, the case-insensitive search `mb_stripos` performs
 * on the folded text, the fixed-width window of `getMeaningFulContent` and the highlighting of
 * `highlightSearchTerm`.
 */
module Snippet {
  import opened Wrappers
  import opened Php
  import Foreign

  // ---------------------------------------------------------------------------------------------
  // removeAccents: `strtr` with a table whose keys are single characters

  predicate IsAscii(c: char) { c < '\U{80}' }

  /**
   * The `$transform` table of `removeAccents`, entry for entry: the replacement of a character
   * the table lists, `None` for every other character. Every key lies outside ASCII and every
   * replacement is non-empty ASCII.
   */
  function AccentEntry(c: char): (r: Option<string>)
    ensures r.Some? ==> !IsAscii(c)
    ensures r.Some? ==> r.value != [] && forall k :: 0 <= k < |r.value| ==> IsAscii(r.value[k])
  {
    match c
    case 'Š' => Some("S")
    case 'š' => Some("s")
    case 'Ž' => Some("Z")
    case 'ž' => Some("z")
    case 'À' => Some("A")
    case 'Á' => Some("A")
    case 'Â' => Some("A")
    case 'Ã' => Some("A")
    case 'Ä' => Some("A")
    case 'Å' => Some("A")
    case 'Æ' => Some("A")
    case 'Ç' => Some("C")
    case 'È' => Some("E")
    case 'É' => Some("E")
    case 'Ê' => Some("E")
    case 'Ë' => Some("E")
    case 'Ì' => Some("I")
    case 'Í' => Some("I")
    case 'Î' => Some("I")
    case 'Ï' => Some("I")
    case 'Ñ' => Some("N")
    case 'Ò' => Some("O")
    case 'Ó' => Some("O")
    case 'Ô' => Some("O")
    case 'Õ' => Some("O")
    case 'Ö' => Some("O")
    case 'Ø' => Some("O")
    case 'Ù' => Some("U")
    case 'Ú' => Some("U")
    case 'Û' => Some("U")
    case 'Ü' => Some("U")
    case 'Ý' => Some("Y")
    case 'Þ' => Some("B")
    case 'ß' => Some("Ss")
    case 'à' => Some("a")
    case 'á' => Some("a")
    case 'â' => Some("a")
    case 'ã' => Some("a")
    case 'ä' => Some("a")
    case 'å' => Some("a")
    case 'æ' => Some("a")
    case 'ç' => Some("c")
    case 'è' => Some("e")
    case 'é' => Some("e")
    case 'ê' => Some("e")
    case 'ë' => Some("e")
    case 'ì' => Some("i")
    case 'í' => Some("i")
    case 'î' => Some("i")
    case 'ï' => Some("i")
    case 'ð' => Some("o")
    case 'ñ' => Some("n")
    case 'ò' => Some("o")
    case 'ó' => Some("o")
    case 'ô' => Some("o")
    case 'õ' => Some("o")
    case 'ö' => Some("o")
    case 'ø' => Some("o")
    case 'ù' => Some("u")
    case 'ú' => Some("u")
    case 'û' => Some("u")
    case 'ý' => Some("y")
    case 'þ' => Some("b")
    case 'ÿ' => Some("y")
    case _ => None
  }

  predicate InAccentTable(c: char) { AccentEntry(c).Some? }

  /** What `strtr` puts in place of one character. */
  function FoldAccent(c: char): (r: string)
    ensures !InAccentTable(c) ==> r == [c]
    ensures r != []
    ensures forall k :: 0 <= k < |r| ==> !InAccentTable(r[k])
  {
    match AccentEntry(c)
    case Some(s) => s
    case None => [c]
  }

  /** `removeAccents($text)`: each character replaced by its table entry, all others kept. */
  function RemoveAccents(s: string): (r: string)
    ensures |r| >= |s|
  {
    if s == [] then [] else FoldAccent(s[0]) + RemoveAccents(s[1..])
  }

  /** Folding a concatenation folds each part. */
  lemma {:induction false} RemoveAccentsAppend(a: string, b: string)
    ensures RemoveAccents(a + b) == RemoveAccents(a) + RemoveAccents(b)
  {
    if a == [] {
      assert a + b == b;
    } else {
      assert (a + b)[0] == a[0] && (a + b)[1..] == a[1..] + b;
      RemoveAccentsAppend(a[1..], b);
      calc {
        RemoveAccents(a + b);
        FoldAccent(a[0]) + RemoveAccents(a[1..] + b);
        FoldAccent(a[0]) + (RemoveAccents(a[1..]) + RemoveAccents(b));
        (FoldAccent(a[0]) + RemoveAccents(a[1..])) + RemoveAccents(b);
      }
    }
  }

  /** A string with no character from the table is returned unchanged. */
  lemma {:induction false} RemoveAccentsUnchanged(s: string)
    requires forall i :: 0 <= i < |s| ==> !InAccentTable(s[i])
    ensures RemoveAccents(s) == s
  {
    if s != [] {
      RemoveAccentsUnchanged(s[1..]);
    }
  }

  /** In particular an ASCII string is returned unchanged. */
  lemma AsciiUnchanged(s: string)
    requires forall i :: 0 <= i < |s| ==> IsAscii(s[i])
    ensures RemoveAccents(s) == s
  {
    RemoveAccentsUnchanged(s);
  }

  /** The folded text holds no character from the table. */
  lemma {:induction false} RemoveAccentsClean(s: string)
    ensures forall i :: 0 <= i < |RemoveAccents(s)| ==> !InAccentTable(RemoveAccents(s)[i])
  {
    if s != [] {
      RemoveAccentsClean(s[1..]);
      var f, rest := FoldAccent(s[0]), RemoveAccents(s[1..]);
      assert RemoveAccents(s) == f + rest;
      forall i | 0 <= i < |f + rest| ensures !InAccentTable((f + rest)[i]) {
        if i >= |f| { assert (f + rest)[i] == rest[i - |f|]; }
      }
    }
  }

  /** Folding twice is folding once. */
  lemma RemoveAccentsIdempotent(s: string)
    ensures RemoveAccents(RemoveAccents(s)) == RemoveAccents(s)
  {
    RemoveAccentsClean(s);
    RemoveAccentsUnchanged(RemoveAccents(s));
  }

  // ---------------------------------------------------------------------------------------------
  // Case-insensitive comparison, as used by mb_stripos and by the /i modifier

  /** Lower-casing for the ASCII and Latin-1 letters; every other character compares exactly. */
  function Lower(c: char): (r: char)
    ensures IsAscii(c) ==> IsAscii(r)
  {
    if 'A' <= c <= 'Z' || ('À' <= c <= 'Þ' && c != '×') then (c as int + 32) as char else c
  }

  /** `needle` occurs at offset `j` of `hay`, ignoring case. */
  predicate MatchesAt(hay: string, needle: string, j: nat) {
    j + |needle| <= |hay| && forall k :: 0 <= k < |needle| ==> Lower(hay[j + k]) == Lower(needle[k])
  }

  /** The first case-insensitive occurrence of `needle` at or after `from`. */
  function IndexFrom(hay: string, needle: string, from: nat): (r: Option<nat>)
    ensures r.Some? ==> from <= r.value && MatchesAt(hay, needle, r.value)
    ensures r.Some? ==> forall j :: from <= j < r.value ==> !MatchesAt(hay, needle, j)
    ensures r.None? ==> forall j :: from <= j ==> !MatchesAt(hay, needle, j)
    decreases |hay| - from
  {
    if from + |needle| > |hay| then None
    else if MatchesAt(hay, needle, from) then Some(from)
    else IndexFrom(hay, needle, from + 1)
  }

  /** `mb_stripos($hay, $needle)`: the offset of the first occurrence, or `None` for PHP's `false`. */
  function IndexOfCI(hay: string, needle: string): (r: Option<nat>)
    ensures r.Some? <==> exists j :: MatchesAt(hay, needle, j)
    ensures r.Some? ==> MatchesAt(hay, needle, r.value) && forall j: nat :: j < r.value ==> !MatchesAt(hay, needle, j)
  {
    IndexFrom(hay, needle, 0)
  }

  // ---------------------------------------------------------------------------------------------
  // getMeaningFulContent

  /** `$size` and `$half = ceil($size / 2)`. */
  const Size: nat := 140
  const Half: nat := 70

  /**
   * The line-end rule on its own, one character at a time: a `"\r\n"` pair becomes one space,
   * a lone `'\r'` becomes one space, every other character is kept in order.
   */
  function LineEndsToSpaces(s: string): (r: string)
    ensures forall i :: 0 <= i < |r| ==> r[i] != '\r'
    ensures |r| <= |s|
    decreases |s|
  {
    if s == [] then []
    else if |s| >= 2 && s[0] == '\r' && s[1] == '\n' then " " + LineEndsToSpaces(s[2..])
    else if s[0] == '\r' then " " + LineEndsToSpaces(s[1..])
    else [s[0]] + LineEndsToSpaces(s[1..])
  }

  /** A text without carriage returns is left as it is. */
  lemma {:induction false} LineEndsToSpacesNoCR(s: string)
    requires forall i :: 0 <= i < |s| ==> s[i] != '\r'
    ensures LineEndsToSpaces(s) == s
    decreases |s|
  {
    if s != [] {
      LineEndsToSpacesNoCR(s[1..]);
      assert s == [s[0]] + s[1..];
    }
  }

  /** The second `str_replace` pass over one character followed by the rest. */
  lemma ReplaceCRCons(c: char, x: string)
    ensures ReplaceAll([c] + x, "\r", " ") == (if c == '\r' then " " else [c]) + ReplaceAll(x, "\r", " ")
  {
    var s := [c] + x;
    assert s[..1] == [c] && s[1..] == x && s[0] == c;
  }

  /** The two passes of `str_replace(["\r\n", "\r"], " ", ...)` amount to the line-end rule. */
  lemma {:induction false} ReplaceLineEnds(s: string)
    ensures ReplaceAll(ReplaceAll(s, "\r\n", " "), "\r", " ") == LineEndsToSpaces(s)
    decreases |s|
  {
    if |s| < 2 {
      if s != [] {
        ReplaceCRCons(s[0], []);
        assert s == [s[0]] + [];
      }
    } else if s[..2] == "\r\n" {
      assert s[0] == '\r' && s[1] == '\n';
      ReplaceLineEnds(s[2..]);
      ReplaceCRCons(' ', ReplaceAll(s[2..], "\r\n", " "));
    } else {
      assert s[..2] == [s[0], s[1]];
      ReplaceLineEnds(s[1..]);
      ReplaceCRCons(s[0], ReplaceAll(s[1..], "\r\n", " "));
    }
  }

  /** The text the snippet is cut from: `str_replace(["\r\n", "\r"], " ", strip_tags($content))`. */
  function Normalise(content: string, env: Foreign.Env): (r: string)
    ensures forall i :: 0 <= i < |r| ==> r[i] != '\r'
  {
    var crlf := ReplaceAll(env.stripTags(content), "\r\n", " ");
    ReplaceAllRemovesChar(crlf, '\r', ' ');
    ReplaceAll(crlf, "\r", " ")
  }

  /** The text the snippet is cut from is the tag-stripped content under the line-end rule. */
  lemma NormaliseLineEnds(content: string, env: Foreign.Env)
    ensures Normalise(content, env) == LineEndsToSpaces(env.stripTags(content))
  {
    ReplaceLineEnds(env.stripTags(content));
  }

  /**
   * `$testpos`: 0 for an empty (or `"0"`) query, else the offset `mb_stripos` finds in the folded
   * text; when there is no occurrence `mb_stripos` gives `false`, which the window arithmetic
   * (`false - $half`, `false + $half`) treats as 0.
   */
  function MatchPosition(text: string, query: string): (pos: nat)
    ensures Falsy(query) ==> pos == 0
    ensures pos > 0 ==> MatchesAt(RemoveAccents(text), RemoveAccents(query), pos)
    ensures pos > 0 ==> forall j: nat :: j < pos ==> !MatchesAt(RemoveAccents(text), RemoveAccents(query), j)
  {
    if Falsy(query) then 0
    else match IndexOfCI(RemoveAccents(text), RemoveAccents(query))
      case Some(p) => p
      case None => 0
  }

  /**
   * The snippet before highlighting, described as the window it amounts to: the characters of
   * `text` from `pos - Half` (but not before 0) up to `pos + Half`, clipped to the text, preceded
   * by `"..."` when the window does not start at the beginning and always followed by `"..."`;
   * a bare `"..."` becomes `""`.
   */
  function Window(text: string, pos: nat): (r: string)
    ensures pos >= Half ==> |r| >= 6 && r[..3] == "..." && r[|r| - 3..] == "..."
    ensures pos >= Half ==> |r| <= Size + 6
    ensures pos < Half ==> (r == "" <==> text == [])
    ensures pos < Half && text != [] ==> r == text[..Min(pos + Half, |text|)] + "..."
    ensures r == "" || r[|r| - 3..] == "..."
  {
    var lo := if pos < Half then 0 else pos - Half;
    var body := text[Min(lo, |text|)..Min(pos + Half, |text|)];
    var s := (if pos < Half then "" else "...") + body + "...";
    if s == "..." then "" else s
  }

  /**
   * The source's arithmetic: start at `pos - Half` unless that is negative, take a LENGTH of
   * `pos + Half` characters clamped to `Size`. It always ends at `pos + Half`, so it is the
   * centred window.
   */
  lemma WindowIsLengthBased(text: string, pos: nat)
    ensures var start: nat := if pos < Half then 0 else pos - Half;
            var length: nat := if pos + Half > Size then Size else pos + Half;
            var s := (if pos < Half then "" else "...") + Substr(text, start, length) + "...";
            Window(text, pos) == if s == "..." then "" else s
  {
    var start: nat := if pos < Half then 0 else pos - Half;
    var length: nat := if pos + Half > Size then Size else pos + Half;
    assert start + length == pos + Half;
    assert Substr(text, start, length) == text[Min(start, |text|)..Min(pos + Half, |text|)];
  }

  // ---------------------------------------------------------------------------------------------
  // highlightSearchTerm

  /** A query whose folded form does not occur in the folded text puts the window at the start. */
  lemma NoMatchPosition(text: string, query: string)
    requires forall j: nat :: !MatchesAt(RemoveAccents(text), RemoveAccents(query), j)
    ensures MatchPosition(text, query) == 0
  {
    var r := IndexOfCI(RemoveAccents(text), RemoveAccents(query));
    assert r.None?;
  }

  /** A non-falsy query whose folded form occurs is found: the position is an occurrence, and no later than any other one. */
  lemma MatchPositionFound(text: string, query: string, j: nat)
    requires !Falsy(query) && MatchesAt(RemoveAccents(text), RemoveAccents(query), j)
    ensures MatchesAt(RemoveAccents(text), RemoveAccents(query), MatchPosition(text, query))
    ensures MatchPosition(text, query) <= j
  {
  }

  /** An empty query, or one whose folded form does not occur, leaves the window at the start of the text with no leading marker. */
  lemma NoMatchWindow(text: string, query: string)
    requires Falsy(query) || forall j: nat :: !MatchesAt(RemoveAccents(text), RemoveAccents(query), j)
    ensures Window(text, MatchPosition(text, query)) == if text == [] then "" else text[..Min(Half, |text|)] + "..."
  {
    if !Falsy(query) {
      NoMatchPosition(text, query);
    }
  }

  /** Characters that make a pattern more than a literal inside `'#' . $search . '#iu'`. */
  const PcreMeta: set<char> := {'\\', '^', '$', '.', '[', ']', '|', '(', ')', '?', '*', '+', '{', '}', '#'}

  predicate IsLiteralPattern(q: string) {
    forall i :: 0 <= i < |q| ==> q[i] !in PcreMeta
  }

  const MatchOpen: string := "<span class=\"match\">"
  const MatchClose: string := "</span>"

  /** The highlighted text as a sequence of kept characters and matched stretches. */
  datatype Piece = Plain(c: char) | Hit(s: string)

  /**
   * What `preg_replace` does with a literal pattern: scan left to right, wrapping each leftmost,
   * non-overlapping case-insensitive occurrence. An empty pattern matches the empty string before
   * every character and at the end.
   */
  function HighlightPieces(text: string, q: string): seq<Piece>
    decreases |text|
  {
    if q == [] then
      if text == [] then [Hit([])] else [Hit([]), Plain(text[0])] + HighlightPieces(text[1..], q)
    else if text == [] then []
    else if MatchesAt(text, q, 0) then [Hit(text[..|q|])] + HighlightPieces(text[|q|..], q)
    else [Plain(text[0])] + HighlightPieces(text[1..], q)
  }

  /** The pieces written out, each hit inside the match span. */
  function RenderPieces(ps: seq<Piece>): string
  {
    if ps == [] then []
    else (match ps[0]
      case Plain(c) => [c]
      case Hit(s) => MatchOpen + s + MatchClose) + RenderPieces(ps[1..])
  }

  /** The pieces with the markers deleted. */
  function Erase(ps: seq<Piece>): string
  {
    if ps == [] then []
    else (match ps[0]
      case Plain(c) => [c]
      case Hit(s) => s) + Erase(ps[1..])
  }

  /** `highlightSearchTerm($text, $search)`; a pattern that is not a literal is left to PCRE. */
  function HighlightSearchTerm(text: string, q: string, env: Foreign.Env): string
  {
    if IsLiteralPattern(q) then RenderPieces(HighlightPieces(text, q)) else env.pregHighlight(text, q)
  }

  /**
   * With a literal pattern, the result is the rendering of the scan's pieces (whose hits are the
   * leftmost non-overlapping occurrences, by the lemmas below), and removing the markers gives
   * the text back.
   */
  lemma HighlightSearchTermMarksText(text: string, q: string, env: Foreign.Env)
    requires IsLiteralPattern(q)
    ensures HighlightSearchTerm(text, q, env) == RenderPieces(HighlightPieces(text, q))
    ensures Erase(HighlightPieces(text, q)) == text
  {
    HighlightErase(text, q);
  }

  lemma {:induction false} EraseAppend(a: seq<Piece>, b: seq<Piece>)
    ensures Erase(a + b) == Erase(a) + Erase(b)
  {
    if a == [] {
      assert a + b == b;
    } else {
      assert (a + b)[0] == a[0] && (a + b)[1..] == a[1..] + b;
      EraseAppend(a[1..], b);
      var h := match a[0] case Plain(c) => [c] case Hit(t) => t;
      assert Erase(a + b) == h + Erase(a[1..] + b);
      assert Erase(a) == h + Erase(a[1..]);
    }
  }

  lemma {:induction false} RenderAppend(a: seq<Piece>, b: seq<Piece>)
    ensures RenderPieces(a + b) == RenderPieces(a) + RenderPieces(b)
  {
    if a == [] {
      assert a + b == b;
    } else {
      assert (a + b)[0] == a[0] && (a + b)[1..] == a[1..] + b;
      RenderAppend(a[1..], b);
      var h := match a[0] case Plain(c) => [c] case Hit(t) => MatchOpen + t + MatchClose;
      assert RenderPieces(a + b) == h + RenderPieces(a[1..] + b);
      assert RenderPieces(a) == h + RenderPieces(a[1..]);
    }
  }

  /** Deleting the markers gives back the text that was highlighted. */
  lemma {:induction false} HighlightErase(text: string, q: string)
    ensures Erase(HighlightPieces(text, q)) == text
    decreases |text|
  {
    if q == [] {
      if text != [] {
        HighlightErase(text[1..], q);
        EraseAppend([Hit([]), Plain(text[0])], HighlightPieces(text[1..], q));
        assert text == [text[0]] + text[1..];
      }
    } else if text != [] {
      if MatchesAt(text, q, 0) {
        HighlightErase(text[|q|..], q);
        EraseAppend([Hit(text[..|q|])], HighlightPieces(text[|q|..], q));
        assert text == text[..|q|] + text[|q|..];
      } else {
        HighlightErase(text[1..], q);
        EraseAppend([Plain(text[0])], HighlightPieces(text[1..], q));
        assert text == [text[0]] + text[1..];
      }
    }
  }

  /** Only case-insensitive occurrences of the query are ever marked. */
  lemma {:induction false} HighlightHitsMatch(text: string, q: string)
    ensures forall i :: 0 <= i < |HighlightPieces(text, q)| && HighlightPieces(text, q)[i].Hit? ==>
      MatchesAt(HighlightPieces(text, q)[i].s, q, 0) && |HighlightPieces(text, q)[i].s| == |q|
    decreases |text|
  {
    var ps := HighlightPieces(text, q);
    if q == [] {
      if text != [] {
        HighlightHitsMatch(text[1..], q);
        assert ps == [Hit([]), Plain(text[0])] + HighlightPieces(text[1..], q);
      }
    } else if text != [] {
      if MatchesAt(text, q, 0) {
        HighlightHitsMatch(text[|q|..], q);
        assert ps == [Hit(text[..|q|])] + HighlightPieces(text[|q|..], q);
        assert MatchesAt(text[..|q|], q, 0);
      } else {
        HighlightHitsMatch(text[1..], q);
        assert ps == [Plain(text[0])] + HighlightPieces(text[1..], q);
      }
    }
  }

  /**
   * Nothing is left unmarked: with a non-empty query, no kept character starts an occurrence in
   * what remains of the text from it on. With the lemma above this says the hits are exactly the
   * leftmost non-overlapping occurrences.
   */
  lemma {:induction false} HighlightComplete(text: string, q: string)
    requires q != []
    ensures forall i :: 0 <= i < |HighlightPieces(text, q)| && HighlightPieces(text, q)[i].Plain? ==>
      !MatchesAt(Erase(HighlightPieces(text, q)[i..]), q, 0)
    decreases |text|
  {
    var ps := HighlightPieces(text, q);
    if text != [] {
      var k := if MatchesAt(text, q, 0) then |q| else 1;
      var rest := HighlightPieces(text[k..], q);
      HighlightComplete(text[k..], q);
      var head := if MatchesAt(text, q, 0) then Hit(text[..|q|]) else Plain(text[0]);
      assert ps == [head] + rest;
      forall i | 0 <= i < |ps| && ps[i].Plain? ensures !MatchesAt(Erase(ps[i..]), q, 0) {
        if i == 0 {
          HighlightErase(text, q);
          assert ps[0..] == ps && ps[0] == head;
        } else {
          assert ps[i..] == rest[i - 1..] && ps[i] == rest[i - 1];
        }
      }
    }
  }

  /** An occurrence in the text after its first character is an occurrence one further on in the text. */
  lemma ShiftedMatch(text: string, q: string, j: nat)
    requires text != []
    ensures MatchesAt(text[1..], q, j) ==> MatchesAt(text, q, j + 1)
  {
    if MatchesAt(text[1..], q, j) {
      forall k | 0 <= k < |q| ensures Lower(text[j + 1 + k]) == Lower(q[k]) {
        assert text[1..][j + k] == text[j + 1 + k];
      }
    }
  }

  /** A text in which a non-empty literal query does not occur comes back unchanged. */
  lemma {:induction false} HighlightNoOccurrence(text: string, q: string)
    requires q != []
    requires forall j: nat :: !MatchesAt(text, q, j)
    ensures RenderPieces(HighlightPieces(text, q)) == text
    decreases |text|
  {
    if text != [] {
      forall j: nat ensures !MatchesAt(text[1..], q, j) {
        ShiftedMatch(text, q, j);
      }
      HighlightNoOccurrence(text[1..], q);
      RenderAppend([Plain(text[0])], HighlightPieces(text[1..], q));
      assert text == [text[0]] + text[1..];
    }
  }

  /** The same for the whole of `highlightSearchTerm`. */
  lemma HighlightSearchTermNoOccurrence(text: string, q: string, env: Foreign.Env)
    requires q != [] && IsLiteralPattern(q)
    requires forall j: nat :: !MatchesAt(text, q, j)
    ensures HighlightSearchTerm(text, q, env) == text
  {
    HighlightNoOccurrence(text, q);
  }
}
