/**
 * Frames and the decoding readFrame applies to the text it accumulated up to the NUL terminator:
 * the text splits on the first blank line into a header block and a body, the header block splits
 * into lines, the first line is the command and every later line is `name:value`, split on the
 * first colon only; the body is trimmed.
 */
module Frames {
  import opened Wrappers
  import opened Text
  import opened OrderedMaps

  type Headers = OrderedMap<string>

  /** A frame as the client sees it: command, headers in insertion order, body. */
  datatype Frame = Frame(command: string, headers: Headers, body: string)

  /** One header line, split on its first ':'; a line without ':' names a header whose value is empty. */
  function DecodeHeaderLine(line: string): (r: (string, string))
    ensures ':' in line ==> ':' !in r.0 && line == r.0 + ":" + r.1
    ensures ':' !in line ==> r == (line, "")
  {
    match SplitOnce(line, ":")
    case Some(p) =>
      forall i | 0 <= i < |p.0|
        ensures p.0[i] != ':'
      {
        assert line[i] == p.0[i];
        assert !OccursAt(line, ":", i);
      }
      p
    case None =>
      NoColon(line);
      (line, "")
  }

  /** A line in which ":" occurs nowhere holds no colon. */
  lemma NoColon(line: string)
    requires forall i :: 0 <= i ==> !OccursAt(line, ":", i)
    ensures ':' !in line
  {
    forall i | 0 <= i < |line|
      ensures line[i] != ':'
    {
      assert !OccursAt(line, ":", i);
      assert line[i..i + 1] == [line[i]];
    }
  }

  /** A header value may itself contain colons: only the first colon of the line separates. */
  lemma HeaderValueKeepsColons(name: string, value: string)
    requires ':' !in name
    ensures DecodeHeaderLine(name + ":" + value) == (name, value)
  {
    var line := name + ":" + value;
    assert OccursAt(line, ":", |name|);
    forall i | 0 <= i < |name| ensures !OccursAt(line, ":", i) {
      assert line[i] == name[i];
    }
    var p := SplitOnce(line, ":").value;
    assert OccursAt(line, ":", |p.0|);
    assert p.0 == line[..|name|] == name;
  }

  /** The header lines, each split on its first colon, in order. */
  function HeaderPairs(lines: seq<string>): (ps: seq<(string, string)>)
    ensures |ps| == |lines|
    ensures forall i :: 0 <= i < |lines| ==> ps[i] == DecodeHeaderLine(lines[i])
  {
    seq(|lines|, i requires 0 <= i < |lines| => DecodeHeaderLine(lines[i]))
  }

  /** Splitting one more line appends one more pair. */
  lemma HeaderPairsSnoc(lines: seq<string>, line: string)
    ensures HeaderPairs(lines + [line]) == HeaderPairs(lines) + [DecodeHeaderLine(line)]
  {
  }

  /** The header lines assigned to an empty map in order, a later line overwriting an equal name. */
  function DecodeHeaders(lines: seq<string>): Headers
  {
    PutAll([], HeaderPairs(lines))
  }

  /** One more header line is one more assignment, made after all the earlier ones. */
  lemma DecodeHeadersSnoc(lines: seq<string>, line: string)
    ensures var p := DecodeHeaderLine(line); DecodeHeaders(lines + [line]) == Put(DecodeHeaders(lines), p.0, p.1)
  {
    HeaderPairsSnoc(lines, line);
    PutAllSnoc([], HeaderPairs(lines), DecodeHeaderLine(line));
  }

  /** Decoding the first k + 1 header lines assigns the (k+1)-th after decoding the first k. */
  lemma DecodeHeadersPrefix(lines: seq<string>, k: nat)
    requires k < |lines|
    ensures var p := DecodeHeaderLine(lines[k]);
      DecodeHeaders(lines[..k + 1]) == Put(DecodeHeaders(lines[..k]), p.0, p.1)
  {
    assert lines[..k + 1] == lines[..k] + [lines[k]];
    DecodeHeadersSnoc(lines[..k], lines[k]);
  }

  /** Decode the text of one frame (after readFrame's trim of surrounding newlines). */
  function DecodeFrame(data: string): Frame
  {
    var parts := match SplitOnce(data, "\n\n") case Some(p) => p case None => (data, "");
    var lines := Split(parts.0, '\n');
    Frame(lines[0], DecodeHeaders(lines[1..]), Trim(parts.1, Whitespace))
  }

  /** A header block: a command line followed by non-empty header lines, joined by newlines. */
  ghost predicate HeaderBlockLines(lines: seq<string>)
  {
    && |lines| >= 1
    && '\n' !in lines[0]
    && forall i :: 1 <= i < |lines| ==> lines[i] != "" && '\n' !in lines[i]
  }

  lemma {:induction false} HeaderBlockHasNoBlankLine(lines: seq<string>)
    requires HeaderBlockLines(lines)
    ensures var h := Join(lines, '\n');
      && |h| >= |lines[0]| && h[..|lines[0]|] == lines[0]
      && (forall i :: 0 <= i < |h| - 1 ==> !(h[i] == '\n' && h[i + 1] == '\n'))
      && (h == [] || h[|h| - 1] != '\n')
  {
    if |lines| > 1 {
      var rest := lines[1..];
      HeaderBlockHasNoBlankLine(rest);
      var t := Join(rest, '\n');
      var h := Join(lines, '\n');
      assert h == lines[0] + ['\n'] + t;
      assert t[0] == lines[1][0];
      forall i | 0 <= i < |h| - 1 ensures !(h[i] == '\n' && h[i + 1] == '\n') {
        if i < |lines[0]| {
          assert h[i] == lines[0][i];
        } else if i > |lines[0]| {
          assert h[i] == t[i - |lines[0]| - 1] && h[i + 1] == t[i - |lines[0]|];
        }
      }
    }
  }

  /** The first blank line of such a text is the one that ends the header block. */
  lemma {:induction false} FirstBlankLineEndsHeaders(lines: seq<string>, body: string)
    requires HeaderBlockLines(lines)
    ensures SplitOnce(Join(lines, '\n') + "\n\n" + body, "\n\n") == Some((Join(lines, '\n'), body))
  {
    var h := Join(lines, '\n');
    var data := h + "\n\n" + body;
    HeaderBlockHasNoBlankLine(lines);
    assert OccursAt(data, "\n\n", |h|);
    forall i | 0 <= i < |h| ensures !OccursAt(data, "\n\n", i) {
      var w := data[i..i + 2];
      assert w[0] == data[i] && w[1] == data[i + 1];
      if i + 1 < |h| {
        assert data[i] == h[i] && data[i + 1] == h[i + 1];
      } else {
        assert data[i] == h[|h| - 1];
      }
    }
    var p := SplitOnce(data, "\n\n").value;
    assert OccursAt(data, "\n\n", |p.0|);
    assert p.0 == data[..|p.0|] == h;
    assert p.1 == body;
  }

  /**
   * The layout of a frame's text: a command line, header lines, a blank line, then the body.
   * Decoding yields that command, the header lines folded into a map and the trimmed body.
   */
  lemma DecodeFrameLayout(lines: seq<string>, body: string)
    requires HeaderBlockLines(lines)
    ensures DecodeFrame(Join(lines, '\n') + "\n\n" + body)
      == Frame(lines[0], DecodeHeaders(lines[1..]), Trim(body, Whitespace))
  {
    FirstBlankLineEndsHeaders(lines, body);
    SplitJoin(lines, '\n');
  }

  /** The NUL terminator that readFrame leaves at the end of the text does not reach the body. */
  lemma TerminatorNotInBody(lines: seq<string>, body: string)
    requires HeaderBlockLines(lines)
    ensures DecodeFrame(Join(lines, '\n') + "\n\n" + body + "\0").body == Trim(body, Whitespace)
  {
    assert Join(lines, '\n') + "\n\n" + body + "\0" == Join(lines, '\n') + "\n\n" + (body + "\0");
    DecodeFrameLayout(lines, body + "\0");
    TrimIgnoresTrailing(body, '\0', Whitespace);
  }
}
