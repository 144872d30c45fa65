/** checkpoint.rs: signed tree heads, their parser and their printer. */
module Checkpoint {
  import opened Prelude
  import opened MerkleTree
  import opened Decimal
  import opened Base64
  import opened TextLines

  datatype CheckpointSignature = CheckpointSignature(name: string, keyId: Bytes, signature: Bytes)

  datatype SignedTreeHead = SignedTreeHead(
    origin: string, treeSize: U64, rootHash: Digest, otherContent: seq<string>,
    signatures: seq<CheckpointSignature>, signedNoteText: string)

  datatype CheckpointError =
    | EmptyCheckpoint
    | MissingBlankLine
    | MissingOrigin
    | EmptyOrigin
    | MissingTreeSize
    | InvalidTreeSize
    | MissingRootHash
    | InvalidRootHash
    | InvalidSignatureLine
    | NoSignatures

  const EM_DASH: char := 0x2014 as char

  // ----- The parser, as functions of the text

  datatype Header = Header(origin: string, treeSize: U64, rootHash: Digest, otherContent: seq<string>)

  /** The trimmed lines from the `i`-th on that have something on them. */
  function Content(lines: seq<string>, i: nat): (content: seq<string>)
    requires i <= |lines|
    decreases |lines| - i
  {
    if i == |lines| then []
    else if Trim(lines[i]) == "" then Content(lines, i + 1)
    else [Trim(lines[i])] + Content(lines, i + 1)
  }

  function ParseHeader(lines: seq<string>): Result<Header, CheckpointError> {
    if |lines| == 0 then Failure(MissingOrigin)
    else if Trim(lines[0]) == "" then Failure(EmptyOrigin)
    else if |lines| == 1 then Failure(MissingTreeSize)
    else if ParseU64(Trim(lines[1])).None? then Failure(InvalidTreeSize)
    else if |lines| == 2 then Failure(MissingRootHash)
    else
      var hash := Decode(Trim(lines[2]));
      if hash.None? || |hash.value| != 32 then Failure(InvalidRootHash)
      else Success(Header(Trim(lines[0]), ParseU64(Trim(lines[1])).value, hash.value, Content(lines, 3)))
  }

  /** A dash, the name of the signer, and the key ID and the signature in base64. */
  function ParseSignature(line: string): Result<CheckpointSignature, CheckpointError>
    requires line != ""
  {
    var words := Words(line);
    if line[0] != EM_DASH || |words| < 3 then Failure(InvalidSignatureLine)
    else
      var decoded := Decode(words[2]);
      if decoded.None? || |decoded.value| < 5 then Failure(InvalidSignatureLine)
      else Success(CheckpointSignature(words[1], decoded.value[..4], decoded.value[4..]))
  }

  /** Signatures from the `i`-th line on; the first line that is not one decides. */
  function ParseSignatures(lines: seq<string>, i: nat): Result<seq<CheckpointSignature>, CheckpointError>
    requires i <= |lines|
    decreases |lines| - i
  {
    if i == |lines| then Success([])
    else if Trim(lines[i]) == "" then ParseSignatures(lines, i + 1)
    else
      var first :- ParseSignature(Trim(lines[i]));
      var rest :- ParseSignatures(lines, i + 1);
      Success([first] + rest)
  }

  /** The text before the first blank line. */
  function BodyOf(text: string): string {
    text[..FirstBlank(text, 0)]
  }

  /** The text between the first blank line and the next. */
  function SignaturesOf(text: string): string
    requires FirstBlank(text, 0) < |text|
  {
    var rest := text[FirstBlank(text, 0) + 2..];
    rest[..FirstBlank(rest, 0)]
  }

  function Parsed(text: string): Result<SignedTreeHead, CheckpointError> {
    if text == "" then Failure(EmptyCheckpoint)
    else if FirstBlank(text, 0) == |text| then Failure(MissingBlankLine)
    else
      var header :- ParseHeader(Lines(BodyOf(text)));
      var signatures :- ParseSignatures(Lines(SignaturesOf(text)), 0);
      if signatures == [] then Failure(NoSignatures)
      else Success(SignedTreeHead(header.origin, header.treeSize, header.rootHash, header.otherContent,
                                  signatures, BodyOf(text) + "\n"))
  }

  /** from_text. */
  method FromText(text: string) returns (r: Result<SignedTreeHead, CheckpointError>)
    ensures r == Parsed(text)
  {
    hide Lines, FirstBlank, Trim, Words, Decode, ParseHeader;
    if text == "" {
      return Failure(EmptyCheckpoint);
    }
    var blank := FirstBlank(text, 0);
    if blank == |text| {
      return Failure(MissingBlankLine);
    }
    var header :- ParseHeader(Lines(text[..blank]));
    var rest := text[blank + 2..];
    var lines := Lines(rest[..FirstBlank(rest, 0)]);
    var signatures := [];
    AfterNothing(ParseSignatures(lines, 0));
    for i := 0 to |lines|
      invariant ParseSignatures(lines, 0) == After(signatures, ParseSignatures(lines, i))
    {
      var line := Trim(lines[i]);
      if line == "" {
        continue;
      }
      if line[0] != EM_DASH {
        return Failure(InvalidSignatureLine);
      }
      var words := Words(line);
      if |words| < 3 {
        return Failure(InvalidSignatureLine);
      }
      var decoded := Decode(words[2]);
      if decoded.None? || |decoded.value| < 5 {
        return Failure(InvalidSignatureLine);
      }
      AfterNext(lines, i, signatures);
      signatures := signatures + [CheckpointSignature(words[1], decoded.value[..4], decoded.value[4..])];
    }
    assert signatures + [] == signatures;
    if signatures == [] {
      return Failure(NoSignatures);
    }
    return Success(SignedTreeHead(header.origin, header.treeSize, header.rootHash, header.otherContent,
                                  signatures, text[..blank] + "\n"));
  }

  function After(done: seq<CheckpointSignature>, rest: Result<seq<CheckpointSignature>, CheckpointError>):
      Result<seq<CheckpointSignature>, CheckpointError> {
    match rest
    case Failure(error) => Failure(error)
    case Success(more) => Success(done + more)
  }

  lemma {:induction false} AfterNothing(rest: Result<seq<CheckpointSignature>, CheckpointError>)
    ensures After([], rest) == rest
  {
    if rest.Success? { assert [] + rest.value == rest.value; }
  }

  lemma {:induction false} AfterNext(lines: seq<string>, i: nat, done: seq<CheckpointSignature>)
    requires i < |lines| && Trim(lines[i]) != "" && ParseSignature(Trim(lines[i])).Success?
    ensures After(done, ParseSignatures(lines, i)) ==
            After(done + [ParseSignature(Trim(lines[i])).value], ParseSignatures(lines, i + 1))
  {
    hide ParseSignature;
    var first, rest := ParseSignature(Trim(lines[i])).value, ParseSignatures(lines, i + 1);
    if rest.Success? { assert done + ([first] + rest.value) == done + [first] + rest.value; }
  }

  // ----- The printer

  function HeaderLines(cp: SignedTreeHead): seq<string> {
    [cp.origin, Numeral(cp.treeSize), Encode(cp.rootHash)] + cp.otherContent
  }

  function Body(cp: SignedTreeHead): string {
    Unlines(HeaderLines(cp), 0)
  }

  /** to_signed_note_body. */
  method ToSignedNoteBody(cp: SignedTreeHead) returns (result: string)
    ensures result == Body(cp)
  {
    result := cp.origin + "\n" + (Numeral(cp.treeSize) + "\n" + (Encode(cp.rootHash) + "\n"));
    ghost var lines := HeaderLines(cp);
    ThreeLines(lines);
    for i := 0 to |cp.otherContent|
      invariant result + Unlines(lines, 3 + i) == Body(cp)
    {
      assert lines[3 + i] == cp.otherContent[i];
      var line := cp.otherContent[i];
      assert result + (line + "\n" + Unlines(lines, 4 + i)) == result + line + "\n" + Unlines(lines, 4 + i);
      result := result + line;
      result := result + "\n";
    }
    assert result + "" == result;
  }

  lemma {:induction false} ThreeLines(lines: seq<string>)
    requires |lines| >= 3
    ensures Unlines(lines, 0) == lines[0] + "\n" + (lines[1] + "\n" + (lines[2] + "\n")) + Unlines(lines, 3)
  {
    var rest := Unlines(lines, 3);
    assert Unlines(lines, 2) == lines[2] + "\n" + rest;
    assert Unlines(lines, 1) == lines[1] + "\n" + (lines[2] + "\n" + rest);
    assert Unlines(lines, 0) == lines[0] + "\n" + (lines[1] + "\n" + (lines[2] + "\n" + rest));
  }

  function SignatureLine(s: CheckpointSignature): string {
    [EM_DASH] + " " + (s.name + " " + Encode(s.keyId + s.signature))
  }

  function SignatureLines(sigs: seq<CheckpointSignature>): (lines: seq<string>)
    ensures |lines| == |sigs|
  {
    seq(|sigs|, i requires 0 <= i < |sigs| => SignatureLine(sigs[i]))
  }

  /** The printed body, a blank line, and a line for each signature. */
  function Printed(cp: SignedTreeHead): string {
    Body(cp) + "\n" + Unlines(SignatureLines(cp.signatures), 0)
  }

  // ----- The parser undoes the printer

  predicate Printable(s: string) {
    Line(s) && Trimmed(s)
  }

  predicate SignatureWellFormed(s: CheckpointSignature) {
    Word(s.name) && |s.keyId| == 4 && |s.signature| >= 1
  }

  predicate WellFormed(cp: SignedTreeHead) {
    && Printable(cp.origin)
    && (forall i :: 0 <= i < |cp.otherContent| ==> Printable(cp.otherContent[i]))
    && cp.signatures != [] && (forall i :: 0 <= i < |cp.signatures| ==> SignatureWellFormed(cp.signatures[i]))
  }

  lemma {:induction false} TrimPrintable(s: string)
    requires Printable(s)
    ensures Trim(s) == s && s != ""
  {
    TrimTrims(s);
  }

  lemma {:induction false} WordPrintable(s: string)
    requires Word(s)
    ensures Printable(s)
  {
    assert IsWhitespace('\n');
  }

  lemma {:induction false} EncodedIsWord(b: Bytes)
    requires b != []
    ensures Word(Encode(b))
  {
    EncodedLetters(b);
    forall i | 0 <= i < |Encode(b)| ensures !IsWhitespace(Encode(b)[i]) {
      LettersAreNotWhitespace(Encode(b)[i]);
    }
  }

  lemma {:induction false} LettersAreNotWhitespace(c: char)
    requires c == '=' || Sextet(c) < 64
    ensures !IsWhitespace(c)
  {
  }

  lemma {:induction false} NumeralIsWord(n: nat)
    ensures Word(Numeral(n))
  {
    NumeralDigits(n);
    hide Numeral;
  }

  lemma {:induction false} HeaderLinesPrintable(cp: SignedTreeHead)
    requires WellFormed(cp)
    ensures forall i :: 0 <= i < |HeaderLines(cp)| ==> Printable(HeaderLines(cp)[i])
  {
    hide Numeral, Encode, Printable;
    NumeralIsWord(cp.treeSize);
    WordPrintable(Numeral(cp.treeSize));
    EncodedIsWord(cp.rootHash);
    WordPrintable(Encode(cp.rootHash));
  }

  lemma {:induction false} ContentOfPrintable(lines: seq<string>, i: nat)
    requires i <= |lines| && forall k :: i <= k < |lines| ==> Printable(lines[k])
    ensures Content(lines, i) == lines[i..]
    decreases |lines| - i
  {
    hide Trim, Printable;
    if i < |lines| {
      ContentOfPrintable(lines, i + 1);
      TrimPrintable(lines[i]);
      assert lines[i..] == [lines[i]] + lines[i + 1..];
    }
  }

  lemma {:induction false} HeaderParsed(cp: SignedTreeHead)
    requires WellFormed(cp)
    ensures ParseHeader(HeaderLines(cp)) == Success(Header(cp.origin, cp.treeSize, cp.rootHash, cp.otherContent))
  {
    hide Numeral, Encode, Decode, ParseU64, Trim, Printable;
    var lines := HeaderLines(cp);
    HeaderLinesPrintable(cp);
    TrimPrintable(lines[0]);
    TrimPrintable(lines[1]);
    TrimPrintable(lines[2]);
    ParseNumeral(cp.treeSize);
    DecodeEncode(cp.rootHash);
    ContentOfPrintable(lines, 3);
    assert lines[3..] == cp.otherContent;
  }

  lemma {:induction false} SignatureLineParsed(s: CheckpointSignature)
    requires SignatureWellFormed(s)
    ensures Printable(SignatureLine(s)) && ParseSignature(SignatureLine(s)) == Success(s)
  {
    hide Encode, Decode, IsWhitespace, Words;
    var line, last := SignatureLine(s), Encode(s.keyId + s.signature);
    EncodedIsWord(s.keyId + s.signature);
    DecodeEncode(s.keyId + s.signature);
    DashIsWord();
    WordsCons([EM_DASH], s.name + " " + last);
    WordsCons(s.name, last);
    LastWord(last);
    assert Words(line) == [[EM_DASH], s.name, last];
    assert (s.keyId + s.signature)[..4] == s.keyId && (s.keyId + s.signature)[4..] == s.signature;
    WordPrintable(s.name);
    WordPrintable(last);
    assert line[0] == EM_DASH && line[|line| - 1] == last[|last| - 1];
    assert '\n' !in line;
  }

  lemma {:induction false} DashIsWord()
    ensures Word([EM_DASH])
  {
  }

  lemma {:induction false} SignaturesParsed(sigs: seq<CheckpointSignature>, i: nat)
    requires i <= |sigs| && forall k :: 0 <= k < |sigs| ==> SignatureWellFormed(sigs[k])
    ensures ParseSignatures(SignatureLines(sigs), i) == Success(sigs[i..])
    decreases |sigs| - i
  {
    hide SignatureLine, ParseSignature, SignatureWellFormed, Printable, Trim;
    if i < |sigs| {
      SignatureLineParsed(sigs[i]);
      TrimPrintable(SignatureLine(sigs[i]));
      SignaturesParsed(sigs, i + 1);
      assert SignatureLines(sigs)[i] == SignatureLine(sigs[i]);
      assert sigs[i..] == [sigs[i]] + sigs[i + 1..];
    }
  }

  /** The two parts that the parser splits the printed text into. */
  lemma {:induction false} PrintedParts(cp: SignedTreeHead)
    requires WellFormed(cp)
    ensures var text := Printed(cp);
            && FirstBlank(text, 0) < |text| && BodyOf(text) + "\n" == Body(cp)
            && Lines(BodyOf(text)) == HeaderLines(cp)
            && Lines(SignaturesOf(text)) == SignatureLines(cp.signatures)
  {
    hide HeaderLines, SignatureLine, SignatureLines, FirstBlank, Lines, Unlines;
    var text, header, sigs := Printed(cp), HeaderLines(cp), SignatureLines(cp.signatures);
    AllLines(cp);
    SplitParagraphs(header, sigs);
    assert text == Unlines(header, 0) + "\n" + Unlines(sigs, 0);
  }

  lemma {:induction false} AllLines(cp: SignedTreeHead)
    requires WellFormed(cp)
    ensures |HeaderLines(cp)| > 0 && AreLines(HeaderLines(cp))
    ensures |SignatureLines(cp.signatures)| > 0 && AreLines(SignatureLines(cp.signatures))
  {
    hide SignatureLine, SignatureWellFormed, Trimmed, Encode, Numeral;
    HeaderLinesPrintable(cp);
    forall i | 0 <= i < |cp.signatures| ensures Line(SignatureLines(cp.signatures)[i]) {
      SignatureLineParsed(cp.signatures[i]);
    }
  }

  lemma {:induction false} SplitParagraphs(a: seq<string>, b: seq<string>)
    requires |a| > 0 && |b| > 0 && AreLines(a) && AreLines(b)
    ensures var text := Unlines(a, 0) + "\n" + Unlines(b, 0);
            && FirstBlank(text, 0) < |text| && BodyOf(text) + "\n" == Unlines(a, 0)
            && Lines(BodyOf(text)) == a && Lines(SignaturesOf(text)) == b
  {
    hide FirstBlank, Lines, Joined, Unlines, Paragraph;
    var text, p, rest := Unlines(a, 0) + "\n" + Unlines(b, 0), Joined(a, 0), Unlines(b, 0);
    UnlinesJoined(a, 0);
    UnlinesJoined(b, 0);
    JoinedIsParagraph(a, 0);
    JoinedIsParagraph(b, 0);
    assert text == p + "\n\n" + rest;
    ParagraphEnds(p, rest);
    assert BodyOf(text) == p;
    LinesOfJoined(a, 0);
    assert a[0..] == a && b[0..] == b;
    assert text[|p| + 2..] == rest;
    ParagraphAlone(Joined(b, 0));
    assert rest[..|rest|] == rest;
    LinesOfUnlines(b, 0);
  }

  /** Parsing what was printed gives back every field, and the printed body as the signed text. */
  lemma {:induction false} ParserUndoesPrinter(cp: SignedTreeHead)
    requires WellFormed(cp)
    ensures Parsed(Printed(cp)) == Success(cp.(signedNoteText := Body(cp)))
  {
    hide HeaderLines, ParseHeader, ParseSignatures, SignatureLines, BodyOf, SignaturesOf, Body, Lines, FirstBlank,
      Printed;
    PrintedParts(cp);
    HeaderParsed(cp);
    SignaturesParsed(cp.signatures, 0);
    assert cp.signatures[0..] == cp.signatures;
  }

  // ----- What the parser accepts

  lemma {:induction false} TrimmedLinePrintable(line: string)
    requires '\n' !in line && Trim(line) != ""
    ensures Printable(Trim(line))
  {
    TrimTrims(line);
  }

  lemma {:induction false} ContentPrintable(lines: seq<string>, i: nat)
    requires i <= |lines| && forall k :: 0 <= k < |lines| ==> '\n' !in lines[k]
    ensures forall k :: 0 <= k < |Content(lines, i)| ==> Printable(Content(lines, i)[k])
    decreases |lines| - i
  {
    hide Printable, Trim;
    if i < |lines| {
      ContentPrintable(lines, i + 1);
      if Trim(lines[i]) != "" { TrimmedLinePrintable(lines[i]); }
    }
  }

  lemma {:induction false} ParsedSignaturesWellFormed(lines: seq<string>, i: nat)
    requires i <= |lines| && ParseSignatures(lines, i).Success?
    ensures forall k :: 0 <= k < |ParseSignatures(lines, i).value| ==>
              SignatureWellFormed(ParseSignatures(lines, i).value[k])
    decreases |lines| - i
  {
    hide ParseSignature, SignatureWellFormed, Trim;
    if i < |lines| {
      ParsedSignaturesWellFormed(lines, i + 1);
      if Trim(lines[i]) != "" { ParsedSignatureWellFormed(Trim(lines[i])); }
    }
  }

  lemma {:induction false} ParsedSignatureWellFormed(line: string)
    requires line != "" && ParseSignature(line).Success?
    ensures SignatureWellFormed(ParseSignature(line).value)
  {
    hide Decode, IsWhitespace;
    assert Word(Words(line)[1]);
  }

  /** Every accepted checkpoint is well-formed, and the text that its signatures cover is a prefix of it. */
  lemma {:induction false} AcceptedWellFormed(text: string)
    requires Parsed(text).Success?
    ensures WellFormed(Parsed(text).value)
    ensures Parsed(text).value.signedNoteText <= text
  {
    hide Printable, SignatureWellFormed, ParseSignatures, Decode, ParseU64, Lines, Trim, Content;
    var lines := Lines(BodyOf(text));
    LinesHaveNoNewline(BodyOf(text));
    assert forall k :: 0 <= k < |lines| ==> lines[k] in lines;
    TrimmedLinePrintable(lines[0]);
    ContentPrintable(lines, 3);
    ParsedSignaturesWellFormed(Lines(SignaturesOf(text)), 0);
    assert BodyOf(text) + "\n" == text[..FirstBlank(text, 0) + 1];
  }

  /** So printing an accepted checkpoint and parsing it again changes no field. */
  lemma {:induction false} ReprintingChangesNothing(text: string)
    requires Parsed(text).Success?
    ensures var cp := Parsed(text).value;
            Parsed(Printed(cp)) == Success(cp.(signedNoteText := Body(cp)))
  {
    hide Parsed, WellFormed, Body, Printed;
    AcceptedWellFormed(text);
    ParserUndoesPrinter(Parsed(text).value);
  }

  /** The signed text determines every field but the signatures. */
  lemma {:induction false} SignedTextDeterminesHeader(a: string, b: string)
    requires Parsed(a).Success? && Parsed(b).Success?
    requires Parsed(a).value.signedNoteText == Parsed(b).value.signedNoteText
    ensures var (x, y) := (Parsed(a).value, Parsed(b).value);
            x.origin == y.origin && x.treeSize == y.treeSize && x.rootHash == y.rootHash
              && x.otherContent == y.otherContent
  {
    hide ParseHeader, ParseSignatures, Lines, SignaturesOf, FirstBlank;
    assert BodyOf(a) == (BodyOf(a) + "\n")[..|BodyOf(a)|] && BodyOf(b) == (BodyOf(b) + "\n")[..|BodyOf(b)|];
    assert |BodyOf(a) + "\n"| == |BodyOf(b) + "\n"|;
  }

  // ----- The format, letter by letter

  /** A checkpoint with one signature and no other content. */
  lemma {:induction false} PrintedText(cp: SignedTreeHead)
    requires cp.otherContent == [] && |cp.signatures| == 1
    ensures Printed(cp) ==
            cp.origin + "\n" + Numeral(cp.treeSize) + "\n" + Encode(cp.rootHash) + "\n" + "\n" +
            "\U{2014} " + cp.signatures[0].name + " " +
            Encode(cp.signatures[0].keyId + cp.signatures[0].signature) + "\n"
  {
    hide Numeral, Encode;
    var lines, sigs := HeaderLines(cp), SignatureLines(cp.signatures);
    ThreeLines(lines);
    assert Unlines(lines, 3) == "" && Unlines(sigs, 1) == "";
    assert Unlines(sigs, 0) == sigs[0] + "\n" + "";
    assert [EM_DASH] + " " == "\U{2014} ";
  }

  /** What follows a second blank line does not count. */
  lemma {:induction false} RestIsIgnored(cp: SignedTreeHead, rest: string)
    requires WellFormed(cp)
    ensures Parsed(Printed(cp) + "\n" + rest) == Parsed(Printed(cp))
  {
    hide HeaderLines, ParseHeader, ParseSignatures, SignatureLine, SignatureLines, FirstBlank, Lines, Unlines;
    PrintedParts(cp);
    RestParts(cp, rest);
  }

  lemma {:induction false} RestParts(cp: SignedTreeHead, rest: string)
    requires WellFormed(cp)
    ensures var text := Printed(cp) + "\n" + rest;
            && FirstBlank(text, 0) < |text| && BodyOf(text) == BodyOf(Printed(cp))
            && Lines(SignaturesOf(text)) == SignatureLines(cp.signatures)
  {
    hide HeaderLines, SignatureLine, SignatureLines, FirstBlank, Lines, Unlines, Joined, Paragraph;
    var text, header, sigs := Printed(cp) + "\n" + rest, HeaderLines(cp), SignatureLines(cp.signatures);
    AllLines(cp);
    var p, s := Joined(header, 0), Joined(sigs, 0);
    UnlinesJoined(header, 0);
    UnlinesJoined(sigs, 0);
    JoinedIsParagraph(header, 0);
    JoinedIsParagraph(sigs, 0);
    assert text == p + "\n\n" + (s + "\n\n" + rest) && Printed(cp) == p + "\n\n" + (s + "\n");
    ParagraphEnds(p, s + "\n\n" + rest);
    ParagraphEnds(p, s + "\n");
    assert text[|p| + 2..] == s + "\n\n" + rest;
    ParagraphEnds(s, rest);
    assert SignaturesOf(text) == s;
    LinesOfJoined(sigs, 0);
    assert sigs[0..] == sigs;
    assert text[..|p|] == p && Printed(cp)[..|p|] == p;
  }

  /** Any white space separates the parts of a signature line, and more words after them do not count. */
  lemma {:induction false} SignatureLayout(s: CheckpointSignature, gap: string, space: string, end: string,
        more: string)
    requires SignatureWellFormed(s) && Blank(gap) && Blank(space) && Blank(end)
    requires gap != "" && space != "" && end != ""
    ensures var line := "\U{2014}" + gap + (s.name + space + (Encode(s.keyId + s.signature) + end + more));
            ParseSignature(line) == Success(s)
  {
    hide Encode, Decode, IsWhitespace, Words;
    var last := Encode(s.keyId + s.signature);
    var line := "\U{2014}" + gap + (s.name + space + (last + end + more));
    EncodedIsWord(s.keyId + s.signature);
    DecodeEncode(s.keyId + s.signature);
    DashIsWord();
    WordsGap("\U{2014}", gap, s.name + space + (last + end + more));
    WordsGap(s.name, space, last + end + more);
    WordsGap(last, end, more);
    assert Words(line) == ["\U{2014}", s.name, last] + Words(more);
    assert (s.keyId + s.signature)[..4] == s.keyId && (s.keyId + s.signature)[4..] == s.signature;
  }

  /** The other content is that of the lines with something on them, trimmed, in order. */
  lemma {:induction false} ContentIs(before: seq<string>, line: string, after: seq<string>)
    ensures Content(before + [line] + after, 0) ==
            Content(before, 0) + (if Blank(line) then [] else [Trim(line)]) + Content(after, 0)
  {
    hide Trim;
    ContentAppend(before + [line], after, 0);
    ContentAppend(before, [line], 0);
    BlankTrims(line);
    assert Content([line], 1) == [];
  }

  lemma {:induction false} ContentAppend(a: seq<string>, b: seq<string>, i: nat)
    requires i <= |a|
    ensures Content(a + b, i) == Content(a, i) + Content(b, 0)
    decreases |a| - i
  {
    hide Trim;
    if i < |a| {
      ContentAppend(a, b, i + 1);
    } else {
      ContentFrom(a, b, 0);
    }
  }

  lemma {:induction false} ContentFrom(a: seq<string>, b: seq<string>, i: nat)
    requires i <= |b|
    ensures Content(a + b, |a| + i) == Content(b, i)
    decreases |b| - i
  {
    hide Trim;
    if i < |b| { ContentFrom(a, b, i + 1); }
  }
}
