/** The playlist rewriter, `playlist_text` in main.py: a fetched M3U8 body,
    already split into lines, becomes newline-terminated text in which every
    URI line is resolved against the playlist's own URL. */
module Playlist {
  import opened Wrappers

  /** Python's `urljoin(base, reference)`, taken as given: the absolute URL,
      or `None` when it raises (for instance `ValueError` on a malformed
      network location). */
  type UrlJoin = (string, string) -> Option<string>

  /** What the GET of the playlist produced: a status code and the body split
      into decoded lines, or a transport or decoding error. */
  datatype Response = Response(status: int, lines: seq<string>) | TransportError

  /** The output form of one non-empty line: a tag or comment (first character
      `#`) is kept, any other line is resolved against `base`. When `urljoin`
      raises, the whole text is abandoned (see `JoinRaises`), so the empty
      placeholder never reaches the output. */
  function RewriteLine(join: UrlJoin, base: string, line: string): string
    requires line != ""
  {
    if line[0] != '#' then join(base, line).GetOr("") else line
  }

  /** Resolving this line makes `urljoin` raise. */
  predicate Raises(join: UrlJoin, base: string, line: string) {
    line != "" && line[0] != '#' && join(base, line).None?
  }

  /** Some line of the body makes `urljoin` raise. */
  predicate JoinRaises(join: UrlJoin, base: string, lines: seq<string>) {
    exists i :: 0 <= i < |lines| && Raises(join, base, lines[i])
  }

  /** The lines of the rewritten playlist, in input order; empty lines drop out. */
  function Rewritten(join: UrlJoin, base: string, lines: seq<string>): seq<string>
    decreases |lines|
  {
    if lines == [] then []
    else (if lines[0] == "" then [] else [RewriteLine(join, base, lines[0])])
         + Rewritten(join, base, lines[1..])
  }

  /** Text made of the given lines, each followed by a newline. */
  function Join(lines: seq<string>): string
    decreases |lines|
  {
    if lines == [] then "" else lines[0] + "\n" + Join(lines[1..])
  }

  /** The text `playlist_text(url)` returns: the rewritten body on HTTP 200,
      the empty text on any other status, on a fetch or decoding error and
      when `urljoin` raises for some line. */
  function PlaylistTextOf(join: UrlJoin, url: string, response: Response): string {
    if response.Response? && response.status == 200 && !JoinRaises(join, url, response.lines)
    then Join(Rewritten(join, url, response.lines))
    else ""
  }

  /** `playlist_text`: builds the text line by line, as the source's loop does. */
  method PlaylistText(join: UrlJoin, url: string, response: Response) returns (text: string)
    ensures text == PlaylistTextOf(join, url, response)
  {
    text := "";
    if response.TransportError? || response.status != 200 {
      return "";
    }
    var lines := response.lines;
    for i := 0 to |lines|
      invariant text == Join(Rewritten(join, url, lines[..i]))
      invariant !JoinRaises(join, url, lines[..i])
    {
      var line := lines[i];
      TextStep(join, url, lines, i);
      RaisesStep(join, url, lines, i);
      if line == "" {
        continue;
      }
      if line[0] != '#' {
        var resolved := join(url, line);
        if resolved.None? {
          assert Raises(join, url, lines[i]);
          return "";
        }
        text := text + resolved.value + "\n";
      } else {
        text := text + line + "\n";
      }
    }
    assert lines[..|lines|] == lines;
  }

  /** One turn of the loop in `PlaylistText`: a prefix one line longer raises
      exactly when the shorter one does or its last line does. */
  lemma RaisesStep(join: UrlJoin, base: string, lines: seq<string>, i: nat)
    requires i < |lines|
    ensures JoinRaises(join, base, lines[..i + 1])
        <==> JoinRaises(join, base, lines[..i]) || Raises(join, base, lines[i])
  {
  }

  /** One turn of the loop in `PlaylistText`: the text of one more line. */
  lemma TextStep(join: UrlJoin, base: string, lines: seq<string>, i: nat)
    requires i < |lines|
    ensures Join(Rewritten(join, base, lines[..i + 1]))
         == Join(Rewritten(join, base, lines[..i]))
          + (if lines[i] == "" then "" else RewriteLine(join, base, lines[i]) + "\n")
  {
    assert lines[..i + 1] == lines[..i] + [lines[i]];
    RewrittenSnoc(join, base, lines[..i], lines[i]);
    if lines[i] != "" {
      var out := RewriteLine(join, base, lines[i]);
      JoinAppend(Rewritten(join, base, lines[..i]), [out]);
      assert Join([out]) == out + "\n";
    } else {
      var before := Rewritten(join, base, lines[..i]);
      assert before + [] == before;
    }
  }

  /** Rewriting works line by line: the lines of a concatenation are the
      lines of each part, in order. */
  lemma {:induction false} RewrittenAppend(join: UrlJoin, base: string, a: seq<string>, b: seq<string>)
    ensures Rewritten(join, base, a + b) == Rewritten(join, base, a) + Rewritten(join, base, b)
    decreases |a|
  {
    if a != [] {
      RewrittenAppend(join, base, a[1..], b);
      assert (a + b)[1..] == a[1..] + b;
    } else {
      assert a + b == b;
    }
  }

  lemma RewrittenSnoc(join: UrlJoin, base: string, a: seq<string>, line: string)
    ensures Rewritten(join, base, a + [line])
         == Rewritten(join, base, a) + (if line == "" then [] else [RewriteLine(join, base, line)])
  {
    RewrittenAppend(join, base, a, [line]);
  }

  /** Each input line in its place: an empty line contributes nothing, any
      other line exactly its rewritten form, between the output of the lines
      before it and the output of the lines after it. */
  lemma RewrittenAt(join: UrlJoin, base: string, lines: seq<string>, i: nat)
    requires i < |lines|
    ensures Rewritten(join, base, lines)
         == Rewritten(join, base, lines[..i])
          + (if lines[i] == "" then [] else [RewriteLine(join, base, lines[i])])
          + Rewritten(join, base, lines[i + 1..])
  {
    assert lines == lines[..i] + [lines[i]] + lines[i + 1..];
    RewrittenAppend(join, base, lines[..i] + [lines[i]], lines[i + 1..]);
    RewrittenSnoc(join, base, lines[..i], lines[i]);
  }

  /** A non-empty tag or comment line (for instance `#EXTM3U`) appears in the
      output unchanged; any other non-empty line appears as `urljoin` of the
      playlist URL and that line, when that call returns. */
  lemma RewrittenKeepsEveryLine(join: UrlJoin, base: string, lines: seq<string>, i: nat)
    requires i < |lines| && lines[i] != ""
    ensures lines[i][0] == '#' ==> lines[i] in Rewritten(join, base, lines)
    ensures lines[i][0] != '#' && join(base, lines[i]).Some?
            ==> join(base, lines[i]).value in Rewritten(join, base, lines)
  {
    RewrittenAt(join, base, lines, i);
  }

  /** Every output line comes from a non-empty input line. */
  lemma {:induction false} RewrittenFromInput(join: UrlJoin, base: string, lines: seq<string>, k: nat)
    requires k < |Rewritten(join, base, lines)|
    ensures exists i :: 0 <= i < |lines| && lines[i] != ""
                     && Rewritten(join, base, lines)[k] == RewriteLine(join, base, lines[i])
    decreases |lines|
  {
    if lines[0] != "" && k == 0 {
      assert lines[0] != "" && Rewritten(join, base, lines)[0] == RewriteLine(join, base, lines[0]);
    } else {
      var k' := if lines[0] == "" then k else k - 1;
      RewrittenFromInput(join, base, lines[1..], k');
      var i :| 0 <= i < |lines[1..]| && lines[1..][i] != ""
            && Rewritten(join, base, lines[1..])[k'] == RewriteLine(join, base, lines[1..][i]);
      assert lines[i + 1] != "" && Rewritten(join, base, lines)[k] == RewriteLine(join, base, lines[i + 1]);
    }
  }

  /** The rewritten playlist has no lines exactly when every input line is empty. */
  lemma {:induction false} RewrittenEmptyIff(join: UrlJoin, base: string, lines: seq<string>)
    ensures Rewritten(join, base, lines) == [] <==> forall i :: 0 <= i < |lines| ==> lines[i] == ""
    decreases |lines|
  {
    if lines != [] {
      RewrittenEmptyIff(join, base, lines[1..]);
      assert forall i :: 1 <= i < |lines| ==> lines[i] == lines[1..][i - 1];
    }
  }

  /** Joining works part by part. */
  lemma {:induction false} JoinAppend(a: seq<string>, b: seq<string>)
    ensures Join(a + b) == Join(a) + Join(b)
    decreases |a|
  {
    if a != [] {
      JoinAppend(a[1..], b);
      assert (a + b)[1..] == a[1..] + b;
    } else {
      assert a + b == b;
    }
  }

  /** Joined text is empty only for no lines, and otherwise ends in a newline. */
  lemma JoinTerminated(lines: seq<string>)
    ensures Join(lines) == "" <==> lines == []
    ensures lines != [] ==> Join(lines)[|Join(lines)| - 1] == '\n'
  {
  }

  /** Splits text at newlines; the piece after the last newline, when not
      empty, is the final line. */
  function SplitLines(s: string): seq<string> {
    SplitFrom(s, "")
  }

  function SplitFrom(s: string, current: string): seq<string>
    decreases |s|
  {
    if s == [] then (if current == [] then [] else [current])
    else if s[0] == '\n' then [current] + SplitFrom(s[1..], "")
    else SplitFrom(s[1..], current + [s[0]])
  }

  /** A newline-free piece followed by a newline closes the current line. */
  lemma {:induction false} SplitFromLine(current: string, line: string, rest: string)
    requires '\n' !in line
    ensures SplitFrom(line + "\n" + rest, current) == [current + line] + SplitFrom(rest, "")
    decreases |line|
  {
    var s := line + "\n" + rest;
    if line == [] {
      assert s[0] == '\n' && s[1..] == rest;
      assert current + line == current;
    } else {
      assert s[0] == line[0] && s[1..] == line[1..] + "\n" + rest;
      SplitFromLine(current + [line[0]], line[1..], rest);
      assert current + [line[0]] + line[1..] == current + line;
    }
  }

  /** A newline-free tail is the last line. */
  lemma {:induction false} SplitFromTail(current: string, tail: string)
    requires '\n' !in tail && current + tail != []
    ensures SplitFrom(tail, current) == [current + tail]
    decreases |tail|
  {
    if tail != [] {
      SplitFromTail(current + [tail[0]], tail[1..]);
      assert current + [tail[0]] + tail[1..] == current + tail;
    } else {
      assert current + tail == current;
    }
  }

  /** The first line of text is everything before its first newline. */
  lemma SplitLinesCons(line: string, rest: string)
    requires '\n' !in line
    ensures SplitLines(line + "\n" + rest) == [line] + SplitLines(rest)
  {
    SplitFromLine("", line, rest);
    assert "" + line == line;
  }

  /** Text without a newline is a single, unterminated line. */
  lemma SplitLinesLast(tail: string)
    requires tail != [] && '\n' !in tail
    ensures SplitLines(tail) == [tail]
  {
    SplitFromTail("", tail);
    assert "" + tail == tail;
  }

  /** Newline-terminated text reads back line by line as the lines it was
      made of. */
  lemma {:induction false} SplitJoin(lines: seq<string>)
    requires forall i :: 0 <= i < |lines| ==> '\n' !in lines[i]
    ensures SplitLines(Join(lines)) == lines
    decreases |lines|
  {
    if lines != [] {
      SplitJoin(lines[1..]);
      SplitFromLine("", lines[0], Join(lines[1..]));
      assert "" + lines[0] == lines[0];
    }
  }

  /** The text of a fetch is empty exactly when the status is not 200, when
      `urljoin` raises for some line, or when every fetched line is empty;
      otherwise it ends in a newline. */
  lemma PlaylistTextEmptyIff(join: UrlJoin, url: string, status: int, lines: seq<string>)
    ensures PlaylistTextOf(join, url, Response(status, lines)) == ""
        <==> status != 200 || JoinRaises(join, url, lines)
             || forall i :: 0 <= i < |lines| ==> lines[i] == ""
    ensures var text := PlaylistTextOf(join, url, Response(status, lines));
            text != "" ==> text[|text| - 1] == '\n'
  {
    RewrittenEmptyIff(join, url, lines);
    JoinTerminated(Rewritten(join, url, lines));
  }

  /** When neither the fetched lines nor the resolved URLs contain a newline,
      reading the text back line by line gives the rewritten lines. */
  lemma PlaylistTextLines(join: UrlJoin, url: string, lines: seq<string>)
    requires forall i :: 0 <= i < |lines| ==> '\n' !in lines[i]
    requires !JoinRaises(join, url, lines)
    requires forall i :: 0 <= i < |lines| && join(url, lines[i]).Some? ==> '\n' !in join(url, lines[i]).value
    ensures SplitLines(PlaylistTextOf(join, url, Response(200, lines))) == Rewritten(join, url, lines)
  {
    var out := Rewritten(join, url, lines);
    forall k | 0 <= k < |out| ensures '\n' !in out[k] {
      RewrittenFromInput(join, url, lines, k);
    }
    SplitJoin(out);
  }
}
