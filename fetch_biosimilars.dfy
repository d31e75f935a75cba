/**
 * The prompt framing around the sequence generator: the fold sequence is
 * stripped of whitespace, wrapped at 60 residues per line and put between two
 * `<|endoftext|>` sentinels; a generated text is cleaned by dropping all
 * whitespace and every sentinel.
 */
module Biosimilars {
  import opened Text

  /** The generator's document separator. */
  const EndOfText: string := "<|endoftext|>"

  /** Residues per line of the FASTA-style prompt. */
  const LineWidth: nat := 60

  // ---------------------------------------------------------------------------
  // preprocess_sequence
  // ---------------------------------------------------------------------------

  /** The slices `s[i:i+60]` for `i` in `range(0, len(s), 60)`. */
  function Chunks(s: string): (r: seq<string>)
    ensures Concat(r) == s
    ensures forall i :: 0 <= i < |r| ==> 0 < |r[i]| <= LineWidth
    ensures forall i :: 0 <= i < |r| - 1 ==> |r[i]| == LineWidth
    decreases |s|
  {
    if s == [] then []
    else
      var k := Min(LineWidth, |s|);
      var rest := Chunks(s[k..]);
      assert ([s[..k]] + rest)[1..] == rest;
      [s[..k]] + rest
  }

  /** Every chunk followed by a newline. */
  function Lines(chunks: seq<string>): string {
    if chunks == [] then "" else chunks[0] + "\n" + Lines(chunks[1..])
  }

  /** `formatted_seq` once the loop has run over `s`. */
  function Wrap(s: string): string {
    Lines(Chunks(s))
  }

  /** What the prompt for fold sequence `s` is. */
  function Preprocess(s: string): string {
    EndOfText + "\n" + Wrap(RemoveSpace(s)) + EndOfText
  }

  /** One turn of the loop: the first line is taken off the front. */
  lemma {:induction false} WrapStep(s: string)
    requires s != []
    ensures Wrap(s) == s[..Min(LineWidth, |s|)] + "\n" + Wrap(s[Min(LineWidth, |s|)..])
  {
    var k := Min(LineWidth, |s|);
    assert Chunks(s) == [s[..k]] + Chunks(s[k..]);
    assert Chunks(s)[1..] == Chunks(s[k..]);
  }

  /** The turn of the loop at index `i`: the line `s[i:i+60]` comes off the front of what is left. */
  lemma {:induction false} WrapFrom(s: string, i: nat)
    requires i < |s|
    ensures Wrap(s[i..]) == Slice(s, i, i + LineWidth) + "\n" + Wrap(s[Min(i + LineWidth, |s|)..])
  {
    var rest := s[i..];
    WrapStep(rest);
    var k := Min(LineWidth, |rest|);
    assert Slice(s, i, i + LineWidth) == rest[..k];
    assert rest[k..] == s[Min(i + LineWidth, |s|)..];
  }

  /** `preprocess_sequence`: builds the text by appending one line per turn. */
  method PreprocessSequence(sequence: string) returns (processed: string)
    ensures processed == Preprocess(sequence)
  {
    var clean := RemoveSpace(sequence);
    var formatted := "";
    var i := 0;
    assert clean[0..] == clean;
    while i < |clean|
      invariant formatted + Wrap(clean[Min(i, |clean|)..]) == Wrap(clean)
      decreases |clean| - i
    {
      var line := Slice(clean, i, i + LineWidth);
      ghost var tail := clean[Min(i + LineWidth, |clean|)..];
      WrapFrom(clean, i);
      assert Wrap(clean[i..]) == line + "\n" + Wrap(tail);
      assert (formatted + line + "\n") + Wrap(tail) == formatted + Wrap(clean[i..]);
      formatted := formatted + line + "\n";
      i := i + LineWidth;
    }
    assert clean[Min(i, |clean|)..] == [];
    processed := EndOfText + "\n" + formatted + EndOfText;
  }

  /** The sentinel holds no whitespace, so `''.join(split())` keeps it. */
  lemma EndOfTextUnspaced()
    ensures NoSpace(EndOfText) && RemoveSpace(EndOfText) == EndOfText
  {
    forall i | 0 <= i < |EndOfText| ensures !IsSpace(EndOfText[i]) {
      assert '!' <= EndOfText[i] <= '~';
    }
    RemoveSpaceOfUnspaced(EndOfText);
  }

  /** The prompt is the two bare sentinels exactly when the input is blank. */
  lemma {:induction false} PreprocessBlank(s: string)
    ensures Preprocess(s) == EndOfText + "\n" + EndOfText <==> AllSpace(s)
  {
    var c := RemoveSpace(s);
    RemoveSpaceEmpty(s);
    if c != [] {
      WrapStep(c);
      assert |Preprocess(s)| > |EndOfText + "\n" + EndOfText|;
    }
  }

  /** Dropping the whitespace from the wrapped text gives the unwrapped text back. */
  lemma {:induction false} RemoveSpaceOfWrap(c: string)
    requires NoSpace(c)
    ensures RemoveSpace(Wrap(c)) == c
    decreases |c|
  {
    if c != [] {
      var k := Min(LineWidth, |c|);
      WrapStep(c);
      assert NoSpace(c[..k]) by {
        forall i | 0 <= i < k ensures !IsSpace(c[..k][i]) { assert c[..k][i] == c[i]; }
      }
      assert NoSpace(c[k..]) by {
        forall i | 0 <= i < |c| - k ensures !IsSpace(c[k..][i]) { assert c[k..][i] == c[k + i]; }
      }
      RemoveSpaceOfWrap(c[k..]);
      RemoveSpaceOfUnspaced(c[..k]);
      RemoveSpaceConcat(c[..k] + "\n", Wrap(c[k..]));
      RemoveSpaceConcat(c[..k], "\n");
      assert RemoveSpace("\n") == "";
      assert c[..k] + c[k..] == c;
    }
  }

  // ---------------------------------------------------------------------------
  // clean_generated_sequence
  // ---------------------------------------------------------------------------

  /**
   * `s.replace('<|endoftext|>', '')`: scanning from the left, each occurrence
   * is cut out and the scan resumes after it.
   */
  function RemoveEndOfText(s: string): (r: string)
    ensures |r| <= |s|
    ensures forall c :: c in r ==> c in s
    decreases |s|
  {
    if StartsWith(s, EndOfText) then RemoveEndOfText(s[|EndOfText|..])
    else if s == [] then []
    else [s[0]] + RemoveEndOfText(s[1..])
  }

  /** `clean_generated_sequence` */
  function Clean(generated: string): string {
    RemoveEndOfText(RemoveSpace(generated))
  }

  /** A cleaned sequence holds no whitespace. */
  lemma CleanUnspaced(generated: string)
    ensures NoSpace(Clean(generated))
  {
    var c := RemoveSpace(generated);
    var r := RemoveEndOfText(c);
    forall i | 0 <= i < |r| ensures !IsSpace(r[i]) {
      assert r[i] in c;
    }
  }

  /** Text without a `'<'` holds no sentinel, so the scan passes over it. */
  lemma {:induction false} RemoveEndOfTextSkips(a: string, b: string)
    requires '<' !in a
    ensures RemoveEndOfText(a + b) == a + RemoveEndOfText(b)
    decreases |a|
  {
    if a != [] {
      assert (a + b)[0] == a[0] != EndOfText[0];
      assert (a + b)[1..] == a[1..] + b;
      RemoveEndOfTextSkips(a[1..], b);
    } else {
      assert a + b == b;
    }
  }

  /** Dropping the whitespace around a line break between two unspaced texts. */
  lemma RemoveSpaceAroundBreak(a: string, w: string, b: string)
    requires NoSpace(a) && NoSpace(b)
    ensures RemoveSpace(a + "\n" + w + b) == a + RemoveSpace(w) + b
  {
    var nl := "\n";
    assert RemoveSpace(nl) == "" by {
      assert IsSpace(nl[0]) && nl[1..] == [];
    }
    RemoveSpaceOfUnspaced(a);
    RemoveSpaceOfUnspaced(b);
    RemoveSpaceConcat(a, nl);
    assert RemoveSpace(a + nl) == a;
    RemoveSpaceConcat(a + nl, w);
    assert RemoveSpace(a + nl + w) == a + RemoveSpace(w);
    RemoveSpaceConcat(a + nl + w, b);
  }

  /** A sentinel at the front is cut out and the scan goes on after it. */
  lemma LeadingSentinel(rest: string)
    ensures RemoveEndOfText(EndOfText + rest) == RemoveEndOfText(rest)
  {
    var t := EndOfText + rest;
    assert t[..|EndOfText|] == EndOfText;
    assert t[|EndOfText|..] == rest;
  }

  /** Between two sentinels, a text without a `'<'` is all that is left. */
  lemma BetweenSentinels(c: string)
    requires '<' !in c
    ensures RemoveEndOfText(EndOfText + c + EndOfText) == c
  {
    assert EndOfText + c + EndOfText == EndOfText + (c + EndOfText);
    LeadingSentinel(c + EndOfText);
    RemoveEndOfTextSkips(c, EndOfText);
    LeadingSentinel([]);
    assert EndOfText + [] == EndOfText;
  }

  /** Cleaning the prompt gives back the fold sequence without its whitespace. */
  lemma RoundTrip(s: string)
    requires '<' !in s
    ensures Clean(Preprocess(s)) == RemoveSpace(s)
  {
    var c := RemoveSpace(s);
    EndOfTextUnspaced();
    RemoveSpaceOfWrap(c);
    RemoveSpaceAroundBreak(EndOfText, Wrap(c), EndOfText);
    BetweenSentinels(c);
  }
}
