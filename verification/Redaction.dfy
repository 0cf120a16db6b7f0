/** Scrubbing known secrets from text. */
module Redaction {
  import opened Common
  import opened Texts

  const PLACEHOLDER := "<redacted>"

  /** Leftmost, non-overlapping replacement of every occurrence. */
  function ReplaceAll(s: string, k: string, with: string): string
    requires k != ""
  {
    if |s| < |k| then s
    else if s[..|k|] == k then with + ReplaceAll(s[|k|..], k, with)
    else [s[0]] + ReplaceAll(s[1..], k, with)
  }

  lemma {:induction false} StepOver(s: string, k: string, with: string)
    requires s != "" && k != "" && !(k <= s)
    ensures ReplaceAll(s, k, with) == [s[0]] + ReplaceAll(s[1..], k, with)
  {
    if |s| < |k| {
      assert s == [s[0]] + s[1..];
    }
  }

  /** The known-secret stage applied to the first n secrets. */
  function Scrubbed(s: string, known: seq<string>): string {
    if known == [] then s
    else
      var before := Scrubbed(s, known[..|known| - 1]);
      var k := Trim(known[|known| - 1]);
      if |k| >= 4 then ReplaceAll(before, k, PLACEHOLDER) else before
  }

  method ScrubKnown(text: string, known: seq<string>) returns (s: string)
    ensures s == Scrubbed(text, known)
  {
    s := text;
    for i := 0 to |known|
      invariant s == Scrubbed(text, known[..i])
    {
      var k := Trim(known[i]);
      assert known[..i + 1][..i] == known[..i];
      if |k| >= 4 {
        s := ReplaceAll(s, k, PLACEHOLDER);
      }
    }
    assert known[..|known|] == known;
  }

  // ----- What stays -----

  lemma OccursBehind(c: string, s: string, k: string, i: int)
    requires i >= |c|
    ensures OccursAt(c + s, k, i) <==> OccursAt(s, k, i - |c|)
  {
    if i + |k| <= |c + s| {
      assert (c + s)[i..i + |k|] == s[i - |c|..i - |c| + |k|];
    }
  }

  /** The pieces of a text between the leftmost, non-overlapping occurrences of a secret. */
  function Pieces(s: string, k: string): (pieces: seq<string>)
    requires k != ""
    ensures pieces != []
  {
    if |s| < |k| then [s]
    else if s[..|k|] == k then [""] + Pieces(s[|k|..], k)
    else
      var rest := Pieces(s[1..], k);
      [[s[0]] + rest[0]] + rest[1..]
  }

  /** The pieces with the same text between each two. */
  function Glued(pieces: seq<string>, with: string): string
    requires pieces != []
  {
    if |pieces| == 1 then pieces[0] else pieces[0] + (with + Glued(pieces[1..], with))
  }

  lemma {:induction false} GluedFront(c: char, pieces: seq<string>, with: string)
    requires pieces != []
    ensures Glued([[c] + pieces[0]] + pieces[1..], with) == [c] + Glued(pieces, with)
  {
    var longer := [[c] + pieces[0]] + pieces[1..];
    assert longer[1..] == pieces[1..];
    if |pieces| > 1 {
      var rest := with + Glued(pieces[1..], with);
      assert [c] + pieces[0] + rest == [c] + (pieces[0] + rest);
    }
  }

  /** A replacement keeps every piece as it stands: the text is its pieces with the secret
      between them, the result the same pieces with the replacement between them. */
  lemma {:induction false} PiecesStay(s: string, k: string, with: string)
    requires k != ""
    ensures Glued(Pieces(s, k), k) == s
    ensures Glued(Pieces(s, k), with) == ReplaceAll(s, k, with)
    decreases |s|
  {
    if |s| >= |k| {
      if s[..|k|] == k {
        var rest := Pieces(s[|k|..], k);
        PiecesStay(s[|k|..], k, with);
        assert ([""] + rest)[1..] == rest;
        assert s == k + s[|k|..];
      } else {
        var rest := Pieces(s[1..], k);
        PiecesStay(s[1..], k, with);
        GluedFront(s[0], rest, k);
        GluedFront(s[0], rest, with);
        assert s == [s[0]] + s[1..];
      }
    }
  }

  /** The first piece begins the text. */
  lemma {:induction false} FirstPieceBegins(s: string, k: string)
    requires k != ""
    ensures Pieces(s, k)[0] <= s
    decreases |s|
  {
    if |s| >= |k| && s[..|k|] != k {
      FirstPieceBegins(s[1..], k);
    }
  }

  lemma {:induction false} FirstPieceIsFree(s: string, k: string)
    requires k != "" && |s| >= |k| && s[..|k|] != k && !Occurs(Pieces(s[1..], k)[0], k)
    ensures !Occurs(Pieces(s, k)[0], k)
  {
    var rest, first := Pieces(s[1..], k)[0], Pieces(s, k)[0];
    assert first == [s[0]] + rest;
    FirstPieceBegins(s, k);
    forall i
      ensures !OccursAt(first, k, i)
    {
      if i >= 1 {
        OccursBehind([s[0]], rest, k, i);
        assert !OccursAt(rest, k, i - 1);
      } else if i == 0 && |k| <= |first| {
        assert first[..|k|] == s[..|k|];
      }
    }
  }

  /** No piece holds the secret: every occurrence is replaced that is not cut by one before it. */
  lemma {:induction false} PiecesAreFree(s: string, k: string)
    requires k != ""
    ensures forall p | p in Pieces(s, k) :: !Occurs(p, k)
    decreases |s|
  {
    if |s| < |k| {
    } else if s[..|k|] == k {
      PiecesAreFree(s[|k|..], k);
    } else {
      PiecesAreFree(s[1..], k);
      FirstPieceIsFree(s, k);
    }
  }

  /** One more secret: one of four characters or more is replaced, a shorter one leaves the
      text alone. */
  lemma {:induction false} OneMoreSecret(text: string, known: seq<string>, secret: string)
    ensures Scrubbed(text, known + [secret]) ==
            if |Trim(secret)| >= 4 then ReplaceAll(Scrubbed(text, known), Trim(secret), "<redacted>")
            else Scrubbed(text, known)
  {
    assert (known + [secret])[..|known|] == known;
  }

  // ----- What goes -----

  /** A secret laid over the placeholder at offset i agrees with it where they overlap. */
  predicate Fits(k: string, i: int) {
    forall j :: 0 <= j < |k| && 0 <= i + j < |PLACEHOLDER| ==> k[j] == PLACEHOLDER[i + j]
  }

  /** No placeholder can help to spell the secret: it overlaps one nowhere. */
  predicate Clean(k: string) {
    forall i :: -|k| < i < |PLACEHOLDER| ==> !Fits(k, i)
  }

  /** An ordinary secret is clean: no angle bracket, and not part of the placeholder's word. */
  lemma PlainSecretsAreClean(k: string)
    requires '<' !in k && '>' !in k && !Occurs("redacted", k)
    ensures Clean(k)
  {
    forall i | -|k| < i < |PLACEHOLDER|
      ensures !Fits(k, i)
    {
      if i <= 0 {
        assert PLACEHOLDER[0] == '<' && k[-i] in k;
      } else if i + |k| >= |PLACEHOLDER| {
        assert PLACEHOLDER[|PLACEHOLDER| - 1] == '>' && k[|PLACEHOLDER| - 1 - i] in k;
      } else {
        assert !OccursAt("redacted", k, i - 1);
        var part := "redacted"[i - 1..i - 1 + |k|];
        assert part != k && |part| == |k|;
        var j :| 0 <= j < |k| && part[j] != k[j];
        assert PLACEHOLDER[i + j] == "redacted"[i + j - 1] == part[j];
      }
    }
  }

  /** What the original does not start with, the replaced text does not start with. */
  lemma {:induction false} NoNewPrefix(s: string, k: string, w: string)
    requires k != "" && !(w <= s)
    requires forall i :: -|w| < i <= 0 ==> !Fits(w, i)
    ensures !(w <= ReplaceAll(s, k, PLACEHOLDER))
    decreases |s|
  {
    if |s| >= |k| {
      if s[..|k|] == k {
        assert !Fits(w, 0);
      } else {
        var t := w[1..];
        forall i | -|t| < i <= 0
          ensures !Fits(t, i)
        {
          assert !Fits(w, i - 1);
          var j :| 0 <= j < |w| && 0 <= i - 1 + j < |PLACEHOLDER| && w[j] != PLACEHOLDER[i - 1 + j];
          assert t[j - 1] == w[j];
        }
        assert s == [s[0]] + s[1..] && w == [w[0]] + t;
        if w[0] == s[0] {
          NoNewPrefix(s[1..], k, t);
        }
      }
    }
  }

  lemma NotAtPlaceholder(rest: string, k: string, i: int)
    requires 0 <= i < |PLACEHOLDER| && !Fits(k, i)
    ensures !OccursAt(PLACEHOLDER + rest, k, i)
  {
    var j :| 0 <= j < |k| && 0 <= i + j < |PLACEHOLDER| && k[j] != PLACEHOLDER[i + j];
    var all := PLACEHOLDER + rest;
    if i + |k| <= |all| {
      assert all[i..i + |k|][j] == PLACEHOLDER[i + j];
    }
  }

  lemma AbsentFromSuffix(s: string, k: string, n: int)
    requires 0 <= n <= |s| && !Occurs(s, k)
    ensures !Occurs(s[n..], k)
  {
    forall i
      ensures !OccursAt(s[n..], k, i)
    {
      if 0 <= i {
        assert s[..n] + s[n..] == s;
        OccursBehind(s[..n], s[n..], k, i + n);
        assert !OccursAt(s, k, i + n);
      }
    }
  }

  /** A placeholder put in front adds no occurrence of a clean secret. */
  lemma NotBehindPlaceholder(rest: string, k: string, i: int)
    requires Clean(k) && k != "" && 0 <= i && !OccursAt(rest, k, i - |PLACEHOLDER|)
    ensures !OccursAt(PLACEHOLDER + rest, k, i)
  {
    if i < |PLACEHOLDER| {
      NotAtPlaceholder(rest, k, i);
    } else {
      OccursBehind(PLACEHOLDER, rest, k, i);
    }
  }

  lemma {:induction false} NotBehindReplaced(s: string, k: string, other: string, i: int)
    requires k != "" && k <= s && Clean(other) && other != "" && 0 <= i
    requires !OccursAt(ReplaceAll(s[|k|..], k, PLACEHOLDER), other, i - |PLACEHOLDER|)
    ensures !OccursAt(ReplaceAll(s, k, PLACEHOLDER), other, i)
  {
    NotBehindPlaceholder(ReplaceAll(s[|k|..], k, PLACEHOLDER), other, i);
  }

  /** Unless the text starts with it, a clean secret does not occur at the front of the result. */
  lemma {:induction false} NotAtFront(s: string, k: string, other: string)
    requires k != "" && Clean(other) && other != "" && !(other <= s)
    ensures !OccursAt(ReplaceAll(s, k, PLACEHOLDER), other, 0)
  {
    NoNewPrefix(s, k, other);
  }

  lemma AbsentBehind(s: string, k: string, other: string, n: int)
    requires 0 <= n <= |s| && (other == k || !Occurs(s, other))
    ensures other == k || !Occurs(s[n..], other)
  {
    if other != k {
      AbsentFromSuffix(s, other, n);
    }
  }

  lemma {:induction false} NotBehindFirst(s: string, k: string, other: string, i: int)
    requires s != "" && k != "" && !(k <= s) && i >= 1
    requires !OccursAt(ReplaceAll(s[1..], k, PLACEHOLDER), other, i - 1)
    ensures !OccursAt(ReplaceAll(s, k, PLACEHOLDER), other, i)
  {
    StepOver(s, k, PLACEHOLDER);
    OccursBehind([s[0]], ReplaceAll(s[1..], k, PLACEHOLDER), other, i);
  }

  /** Replacing one secret removes it, and never recreates another that was absent. */
  lemma {:induction false} NoNewOccurrence(s: string, k: string, other: string, i: nat)
    requires k != "" && Clean(other) && other != ""
    requires other == k || !Occurs(s, other)
    ensures !OccursAt(ReplaceAll(s, k, PLACEHOLDER), other, i)
    decreases |s|
  {
    if k <= s {
      AbsentBehind(s, k, other, |k|);
      if i >= |PLACEHOLDER| {
        NoNewOccurrence(s[|k|..], k, other, i - |PLACEHOLDER|);
      }
      NotBehindReplaced(s, k, other, i);
    } else if i == 0 {
      assert other == k || !OccursAt(s, other, 0);
      NotAtFront(s, k, other);
    } else if s != "" {
      AbsentBehind(s, k, other, 1);
      NoNewOccurrence(s[1..], k, other, i - 1);
      NotBehindFirst(s, k, other, i);
    }
  }

  /** For every text and every list of secrets: a clean secret of trimmed length
      four or more does not occur in the result, whatever the other secrets are
      and in whatever order they come. */
  lemma {:induction false} CleanSecretsAreGone(text: string, known: seq<string>, j: int)
    requires 0 <= j < |known| && |Trim(known[j])| >= 4 && Clean(Trim(known[j]))
    ensures !Occurs(Scrubbed(text, known), Trim(known[j]))
    decreases |known|
  {
    var secret, n := Trim(known[j]), |known| - 1;
    var before, k := Scrubbed(text, known[..n]), Trim(known[n]);
    if j < n {
      CleanSecretsAreGone(text, known[..n], j);
    }
    if |k| >= 4 {
      forall i
        ensures !OccursAt(ReplaceAll(before, k, PLACEHOLDER), secret, i)
      {
        if 0 <= i {
          NoNewOccurrence(before, k, secret, i);
        }
      }
    }
  }

  function Run(c: char, n: nat): string {
    seq(n, _ => c)
  }

  lemma TrimKeeps(s: string)
    requires s == "" || (!IsSpace(s[0]) && !IsSpace(s[|s| - 1]))
    ensures Trim(s) == s
  {
  }

  lemma {:induction false} AbsentIsKept(s: string, k: string, with: string)
    requires k != "" && !Occurs(s, k)
    ensures ReplaceAll(s, k, with) == s
    decreases |s|
  {
    if |s| >= |k| {
      assert !OccursAt(s, k, 0);
      AbsentFromSuffix(s, k, 1);
      AbsentIsKept(s[1..], k, with);
    }
  }

  /** A run is no prefix of a text in which another character comes within its length. */
  lemma RunIsNotPrefix(s: string, c: char, n: nat, i: nat)
    requires i < |s| && i < n && s[i] != c
    ensures !(Run(c, n) <= s)
  {
    assert Run(c, n)[i] == c;
  }

  lemma {:induction false} RunIsPrefix(c: char, n: nat, w: string, with: string)
    requires 0 < n && |w| < n
    ensures ReplaceAll(Run(c, n) + w, Run(c, n), with) == with + w
  {
    var s := Run(c, n) + w;
    assert s[..n] == Run(c, n) && s[n..] == w;
  }

  lemma Regroup(s: string, q: nat, rest: string)
    requires q < |s|
    ensures s[..q] + ([s[q]] + rest) == s[..q + 1] + rest
  {
  }

  /** Replacement starts where the secret first fits. */
  lemma {:induction false} SkipsTo(s: string, k: string, p: nat, with: string)
    requires k != "" && p <= |s| && forall i | 0 <= i < p :: !(k <= s[i..])
    ensures ReplaceAll(s, k, with) == s[..p] + ReplaceAll(s[p..], k, with)
  {
    if p == 0 {
      assert s[0..] == s;
    } else {
      var q := p - 1;
      SkipsTo(s, k, q, with);
      StepOver(s[q..], k, with);
      assert s[q..][1..] == s[p..];
      Regroup(s, q, ReplaceAll(s[p..], k, with));
    }
  }

  /** Text before a run stays when it is shorter and ends in another character. */
  lemma {:induction false} LeftIsKept(u: string, c: char, n: nat, v: string, with: string)
    requires |u| < n && (u != "" ==> u[|u| - 1] != c)
    ensures ReplaceAll(u + v, Run(c, n), with) == u + ReplaceAll(v, Run(c, n), with)
  {
    var s := u + v;
    forall i | 0 <= i < |u|
      ensures !(Run(c, n) <= s[i..])
    {
      RunIsNotPrefix(s[i..], c, n, |u| - 1 - i);
    }
    SkipsTo(s, Run(c, n), |u|, with);
    assert s[..|u|] == u && s[|u|..] == v;
  }

  /** A run of one character is replaced where it stands between texts too short to
      hold it, when the left text does not end in that character. */
  lemma {:induction false} RunIsReplaced(u: string, c: char, n: nat, w: string, with: string)
    requires |u| < n && |w| < n && (u != "" ==> u[|u| - 1] != c)
    ensures ReplaceAll(u + (Run(c, n) + w), Run(c, n), with) == u + (with + w)
  {
    LeftIsKept(u, c, n, Run(c, n) + w, with);
    RunIsPrefix(c, n, w, with);
  }

  /** A secret is not spelled by its two ends around a run that differs from its middle. */
  lemma EndsDoNotSpell(k: string, a: int, b: int, c: char, n: nat)
    requires 0 <= a < b <= |k| <= n && k[a] != c
    ensures !Occurs(k[..a] + (Run(c, n) + k[b..]), k)
  {
    var s := k[..a] + (Run(c, n) + k[b..]);
    forall p
      ensures !OccursAt(s, k, p)
    {
      if 0 <= p && p + |k| <= |s| {
        assert p < n;
        assert s[p..p + |k|][a] == s[p + a] == c;
      }
    }
  }

  /** Where a secret fits the placeholder, its overhanging ends complete it. */
  lemma EndsSpell(k: string, i: int, a: int, b: int)
    requires -|k| < i < |PLACEHOLDER| && Fits(k, i)
    requires a == (if i < 0 then -i else 0) && b == (if i + |k| > |PLACEHOLDER| then |PLACEHOLDER| - i else |k|)
    ensures Occurs(k[..a] + (PLACEHOLDER + k[b..]), k)
  {
    var out, p := k[..a] + (PLACEHOLDER + k[b..]), i + a;
    forall j | 0 <= j < |k|
      ensures out[p + j] == k[j]
    {
      if a <= j < b {
        assert out[p + j] == PLACEHOLDER[i + j];
      }
    }
    assert out[p..p + |k|] == k;
    assert OccursAt(out, k, p);
  }

  lemma {:induction false} TwoSecrets(text: string, k: string, other: string)
    requires |k| >= 4 && |other| >= 4 && Trim(k) == k && Trim(other) == other
    ensures Scrubbed(text, [k, other]) == ReplaceAll(ReplaceAll(text, k, PLACEHOLDER), other, PLACEHOLDER)
  {
    assert [k, other][..1] == [k] && [k][..0] == [];
    assert Scrubbed(text, []) == text;
    assert Scrubbed(text, [k]) == ReplaceAll(text, k, PLACEHOLDER);
  }

  /** A character foreign to every placeholder and different from the one before. */
  function Filler(k: string, a: nat): (c: char)
    requires a <= |k|
    ensures c !in PLACEHOLDER && !IsSpace(c) && (a > 0 ==> k[a - 1] != c)
  {
    if a > 0 && k[a - 1] == 'x' then 'y' else 'x'
  }

  lemma RunIsTrimmed(c: char, n: nat)
    requires n >= 1 && !IsSpace(c)
    ensures Trim(Run(c, n)) == Run(c, n)
  {
    TrimKeeps(Run(c, n));
  }

  /** Scrubbing a secret that is absent and then a run of fillers between two short ends. */
  lemma {:induction false} FillerIsReplaced(u: string, c: char, n: nat, w: string, k: string)
    requires |k| >= 4 && Trim(k) == k && !Occurs(u + (Run(c, n) + w), k)
    requires n >= 4 && !IsSpace(c) && |u| < n && |w| < n && (u != "" ==> u[|u| - 1] != c)
    ensures Scrubbed(u + (Run(c, n) + w), [k, Run(c, n)]) == u + (PLACEHOLDER + w)
  {
    AbsentIsKept(u + (Run(c, n) + w), k, PLACEHOLDER);
    RunIsTrimmed(c, n);
    RunIsReplaced(u, c, n, w, PLACEHOLDER);
    TwoSecrets(u + (Run(c, n) + w), k, Run(c, n));
  }

  /** Where an unclean secret overlaps the placeholder: from a up to b. */
  lemma Overlap(k: string) returns (i: int, a: int, b: int)
    requires k != "" && !Clean(k)
    ensures -|k| < i < |PLACEHOLDER| && Fits(k, i) && 0 <= a < b <= |k| && k[a] in PLACEHOLDER
    ensures a == (if i < 0 then -i else 0) && b == (if i + |k| > |PLACEHOLDER| then |PLACEHOLDER| - i else |k|)
  {
    i :| -|k| < i < |PLACEHOLDER| && Fits(k, i);
    a := if i < 0 then -i else 0;
    b := if i + |k| > |PLACEHOLDER| then |PLACEHOLDER| - i else |k|;
    assert k[a] == PLACEHOLDER[i + a];
  }

  /** The condition is exact: a secret that is not clean is spelled again by the
      placeholder of another secret in some text. */
  lemma UncleanSecretsCanRemain(k: string) returns (text: string, other: string)
    requires |k| >= 4 && Trim(k) == k && !Clean(k)
    ensures Occurs(Scrubbed(text, [k, other]), k)
  {
    var i, a, b := Overlap(k);
    var c, n := Filler(k, a), |k| + 1;
    other := Run(c, n);
    text := k[..a] + (other + k[b..]);
    EndsDoNotSpell(k, a, b, c, n);
    FillerIsReplaced(k[..a], c, n, k[b..], k);
    EndsSpell(k, i, a, b);
  }

  /** Whatever the text and the other secrets. */
  ghost predicate AlwaysRemoved(k: string) {
    forall text, known :: k in known ==> !Occurs(Scrubbed(text, known), k)
  }

  lemma {:induction false} RemainsSomewhere(k: string, text: string, known: seq<string>)
    requires k in known && Occurs(Scrubbed(text, known), k)
    ensures !AlwaysRemoved(k)
  {
  }

  /** Which secrets the scrubbing always removes, exactly. */
  lemma RemovedExactlyWhenClean(k: string)
    requires |k| >= 4 && Trim(k) == k
    ensures Clean(k) <==> AlwaysRemoved(k)
  {
    if Clean(k) {
      forall text, known | k in known
        ensures !Occurs(Scrubbed(text, known), k)
      {
        var j :| 0 <= j < |known| && known[j] == k;
        CleanSecretsAreGone(text, known, j);
      }
    } else {
      var text, other := UncleanSecretsCanRemain(k);
      RemainsSomewhere(k, text, [k, other]);
    }
  }
}
