/** Splitting the output of curl into the body and the footer it was told to append. */
module CurlFooter {
  import opened Common
  import opened Texts

  const MARKER := "\nhttp_code="

  datatype Debug = Debug(httpCode: string, contentType: string, finalURL: string)

  /** The last occurrence that starts at or before i, or -1. */
  function LastIndexFrom(s: string, k: string, i: int): (r: int)
    requires -1 <= i
    ensures r == -1 || (0 <= r <= i && OccursAt(s, k, r))
    ensures forall j :: r < j <= i ==> !OccursAt(s, k, j)
    decreases i
  {
    if i < 0 then -1 else if OccursAt(s, k, i) then i else LastIndexFrom(s, k, i - 1)
  }

  function TrimRightNewlines(s: string): string {
    if s != "" && s[|s| - 1] == '\n' then TrimRightNewlines(s[..|s| - 1]) else s
  }

  /** The trimmed rest of the first line that starts with the key. */
  function FooterValue(lines: seq<string>, key: string): string {
    if lines == [] then ""
    else if HasPrefix(lines[0], key) then Trim(lines[0][|key|..])
    else FooterValue(lines[1..], key)
  }

  function ReadFooter(footer: string): Debug {
    var lines := Lines(footer);
    Debug(FooterValue(lines, "http_code="), FooterValue(lines, "content_type="), FooterValue(lines, "final_url="))
  }

  function Split(out: string): (string, Debug) {
    var at := LastIndexFrom(out, MARKER, |out|);
    if at == -1 then (out, Debug("", "", "")) else (TrimRightNewlines(out[..at]), ReadFooter(out[at..]))
  }

  function FooterFields(code: string, contentType: string, url: string): seq<string> {
    ["", "http_code=" + code, "content_type=" + contentType, "final_url=" + url]
  }

  /** What curl is told to write after the body. */
  function Footer(code: string, contentType: string, url: string): string {
    Joined(FooterFields(code, contentType, url), "")
  }

  /** No marker lies across or within a line that does not start like one. */
  lemma {:induction false} NotInLine(line: string, rest: string)
    requires OneLine(line) && (rest != "" ==> rest[0] != 'h')
    requires forall i :: !OccursAt(rest, MARKER, i)
    ensures forall i :: !OccursAt(line + "\n" + rest, MARKER, i)
  {
    var s := line + "\n" + rest;
    forall i
      ensures !OccursAt(s, MARKER, i)
    {
      if 0 <= i && i + |MARKER| <= |s| {
        if i < |line| {
          assert s[i] == line[i] && line[i] in line;
          assert s[i..i + |MARKER|][0] != MARKER[0];
        } else if i == |line| {
          assert s[i + 1] == rest[0];
          assert s[i..i + |MARKER|][1] != MARKER[1];
        } else {
          var n := |line| + 1;
          assert !OccursAt(rest, MARKER, i - n);
          assert s[i..i + |MARKER|] == rest[i - n..i - n + |MARKER|];
        }
      }
    }
  }

  /** The last field line and its newline hold no marker, nor do those before it. */
  lemma {:induction false} NoMarker(fields: seq<string>)
    requires forall l :: l in fields ==> OneLine(l)
    requires forall i :: 1 <= i < |fields| ==> fields[i] != "" && fields[i][0] != 'h'
    ensures forall i :: !OccursAt(Joined(fields, ""), MARKER, i)
  {
    if fields != [] {
      NoMarker(fields[1..]);
      NotInLine(fields[0], Joined(fields[1..], ""));
    }
  }

  /** Behind its first character a footer holds no marker. */
  lemma OneMarker(code: string, contentType: string, url: string)
    requires OneLine(code) && OneLine(contentType) && OneLine(url)
    ensures MARKER <= Footer(code, contentType, url)
    ensures forall i :: !OccursAt(Footer(code, contentType, url)[1..], MARKER, i)
  {
    var fields := FooterFields(code, contentType, url);
    var rest := Joined(fields[1..], "");
    NoMarker(fields[1..]);
    assert Footer(code, contentType, url) == "\n" + rest;
    assert rest[..10] == "http_code=";
  }

  /** The last marker is the footer's own, whatever the body holds. */
  lemma {:induction false} LastMarkerIsTheFooter(body: string, footer: string)
    requires MARKER <= footer && forall i :: !OccursAt(footer[1..], MARKER, i)
    ensures LastIndexFrom(body + footer, MARKER, |body + footer|) == |body|
  {
    var s := body + footer;
    assert s[|body|..|body| + |MARKER|] == MARKER;
    assert OccursAt(s, MARKER, |body|);
    forall j | |body| < j
      ensures !OccursAt(s, MARKER, j)
    {
      if j + |MARKER| <= |s| {
        var n := |body| + 1;
        assert !OccursAt(footer[1..], MARKER, j - n);
        assert s[j..j + |MARKER|] == footer[1..][j - n..j - n + |MARKER|];
      }
    }
  }

  lemma {:induction false} ValueOfLine(before: seq<string>, key: string, value: string, after: seq<string>)
    requires forall l :: l in before ==> !HasPrefix(l, key)
    ensures FooterValue(before + [key + value] + after, key) == Trim(value)
  {
    var lines := before + [key + value] + after;
    if before == [] {
      assert lines[0] == key + value && (key + value)[|key|..] == value;
    } else {
      assert lines[0] == before[0] && lines[1..] == before[1..] + [key + value] + after;
      ValueOfLine(before[1..], key, value, after);
    }
  }

  lemma FooterIsRead(code: string, contentType: string, url: string)
    requires OneLine(code) && OneLine(contentType) && OneLine(url)
    ensures ReadFooter(Footer(code, contentType, url)) == Debug(Trim(code), Trim(contentType), Trim(url))
  {
    var a, b, c := "http_code=" + code, "content_type=" + contentType, "final_url=" + url;
    var lines := ["", a, b, c, ""];
    LinesOfOneLine("");
    LinesOfJoined(["", a, b, c], "");
    assert Lines(Footer(code, contentType, url)) == lines;
    ValueOfLine([""], "http_code=", code, [b, c, ""]);
    assert lines == [""] + [a] + [b, c, ""];
    assert a[0] == 'h' && b[0] == 'c';
    ValueOfLine(["", a], "content_type=", contentType, [c, ""]);
    assert lines == ["", a] + [b] + [c, ""];
    ValueOfLine(["", a, b], "final_url=", url, [""]);
    assert lines == ["", a, b] + [c] + [""];
  }

  /** The body comes back whole exactly when it does not end in a newline. */
  lemma {:induction false} BodyIsWhole(body: string)
    ensures |TrimRightNewlines(body)| <= |body|
    ensures TrimRightNewlines(body) == body <==> body == "" || body[|body| - 1] != '\n'
  {
    if body != "" && body[|body| - 1] == '\n' {
      BodyIsWhole(body[..|body| - 1]);
    }
  }

  /** For every body, even one that itself holds footers: splitting what curl prints gives
      the body without its final newlines and the three values, trimmed; so the whole body
      exactly when it does not end in a newline. */
  lemma {:induction false} FooterRoundTrip(body: string, code: string, contentType: string, url: string)
    requires OneLine(code) && OneLine(contentType) && OneLine(url)
    ensures Split(body + Footer(code, contentType, url)) ==
            (TrimRightNewlines(body), Debug(Trim(code), Trim(contentType), Trim(url)))
    ensures Split(body + Footer(code, contentType, url)).0 == body <==> body == "" || body[|body| - 1] != '\n'
  {
    var footer := Footer(code, contentType, url);
    OneMarker(code, contentType, url);
    LastMarkerIsTheFooter(body, footer);
    assert (body + footer)[..|body|] == body && (body + footer)[|body|..] == footer;
    FooterIsRead(code, contentType, url);
    BodyIsWhole(body);
  }

  /** Output without a footer is all body, and its three values are empty; with one, what
      comes before the last marker is the body, less its final newlines. */
  lemma SplitExactly(out: string)
    ensures !Occurs(out, MARKER) ==> Split(out) == (out, Debug("", "", ""))
    ensures Occurs(out, MARKER) ==>
              exists at :: OccursAt(out, MARKER, at) && (forall j | at < j :: !OccursAt(out, MARKER, j)) &&
                           Split(out).0 == TrimRightNewlines(out[..at])
  {
    var r := LastIndexFrom(out, MARKER, |out|);
    assert forall j | |out| < j :: !OccursAt(out, MARKER, j);
    if Occurs(out, MARKER) {
      var i :| OccursAt(out, MARKER, i);
      assert r != -1;
      assert OccursAt(out, MARKER, r) && Split(out).0 == TrimRightNewlines(out[..r]);
    }
  }
}
