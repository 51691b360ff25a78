/**
 * `PDFProcessor` of app/pdf_processor.py and the list parsing of
 * pdf_processor.py: whitespace normalisation, the input dispatch, the empty
 * guards of the pipeline and the parsing of the model's comma-separated list
 * of character names. The PDF reader, the text splitter, the vector store and
 * the model are parameters.
 */
module PdfProcessor {
  import opened Wrappers
  import opened Text
  import opened Seqs

  // ---------------------------------------------------------------------
  // Whitespace normalisation: re.sub(r'\s+', ' ', text).strip()
  // ---------------------------------------------------------------------

  /** The characters of `s` that are not whitespace, in order. */
  function NonSpace(s: string): (r: string)
    ensures forall k :: 0 <= k < |r| ==> !IsSpace(r[k])
    decreases |s|
  {
    if s == [] then [] else (if IsSpace(s[0]) then [] else [s[0]]) + NonSpace(s[1..])
  }

  lemma NonSpaceCons(c: char, s: string)
    ensures NonSpace([c] + s) == (if IsSpace(c) then [] else [c]) + NonSpace(s)
  {
    assert ([c] + s)[0] == c;
    assert ([c] + s)[1..] == s;
  }

  lemma {:induction false} NonSpaceAppend(a: string, b: string)
    ensures NonSpace(a + b) == NonSpace(a) + NonSpace(b)
    decreases |a|
  {
    if a == [] {
      assert a + b == b;
    } else {
      assert a + b == [a[0]] + (a[1..] + b);
      NonSpaceCons(a[0], a[1..] + b);
      NonSpaceAppend(a[1..], b);
      assert a == [a[0]] + a[1..];
      NonSpaceCons(a[0], a[1..]);
    }
  }

  /** A string has no visible characters exactly when it is all whitespace. */
  lemma {:induction false} NonSpaceEmptyIffAllSpace(s: string)
    ensures NonSpace(s) == [] <==> forall k :: 0 <= k < |s| ==> IsSpace(s[k])
    decreases |s|
  {
    if s != [] {
      NonSpaceEmptyIffAllSpace(s[1..]);
      if forall k :: 0 <= k < |s| ==> IsSpace(s[k]) {
        assert forall k :: 0 <= k < |s[1..]| ==> IsSpace(s[1..][k]) by {
          forall k | 0 <= k < |s[1..]| ensures IsSpace(s[1..][k]) {
            assert s[1..][k] == s[k + 1];
          }
        }
      }
      if NonSpace(s) == [] {
        forall k | 0 <= k < |s| ensures IsSpace(s[k]) {
          if k > 0 {
            assert s[k] == s[1..][k - 1];
          }
        }
      }
    }
  }

  /** Dropping leading whitespace keeps every visible character. */
  lemma {:induction false} NonSpaceTrimLeft(s: string)
    ensures NonSpace(TrimLeft(s, IsSpace)) == NonSpace(s)
    decreases |s|
  {
    if |s| > 0 && IsSpace(s[0]) {
      assert TrimLeft(s, IsSpace) == TrimLeft(s[1..], IsSpace);
      assert NonSpace(s) == NonSpace(s[1..]);
      NonSpaceTrimLeft(s[1..]);
    }
  }

  /** Dropping trailing whitespace keeps every visible character. */
  lemma NonSpaceTrimRight(s: string)
    ensures NonSpace(TrimRight(s, IsSpace)) == NonSpace(s)
  {
    var r := TrimRight(s, IsSpace);
    var tail := s[|r|..];
    TrimRightDropsOnly(s, IsSpace);
    assert s == r + tail;
    NonSpaceAppend(r, tail);
    NonSpaceEmptyIffAllSpace(tail);
    assert forall k :: 0 <= k < |tail| ==> IsSpace(tail[k]) by {
      forall k | 0 <= k < |tail| ensures IsSpace(tail[k]) {
        assert tail[k] == s[|r| + k];
      }
    }
  }

  lemma NonSpaceStrip(s: string)
    ensures NonSpace(Strip(s)) == NonSpace(s)
  {
    NonSpaceTrimLeft(s);
    NonSpaceTrimRight(TrimLeft(s, IsSpace));
  }

  /** The only whitespace is the plain space, and no two spaces are adjacent. */
  predicate SingleSpaced(s: string) {
    && (forall k :: 0 <= k < |s| && IsSpace(s[k]) ==> s[k] == ' ')
    && (forall k :: 0 <= k < |s| - 1 && s[k] == ' ' ==> s[k + 1] != ' ')
  }

  /** What `_clean_text` promises: single-spaced, with nothing to strip at either end. */
  predicate Normal(s: string) {
    && (s == [] || (!IsSpace(s[0]) && !IsSpace(s[|s| - 1])))
    && SingleSpaced(s)
  }

  lemma SingleSpacedCons(c: char, s: string)
    requires SingleSpaced(s)
    requires IsSpace(c) ==> c == ' '
    requires c == ' ' ==> s == [] || s[0] != ' '
    ensures SingleSpaced([c] + s)
  {
    var t := [c] + s;
    forall k | 0 < k < |t| ensures t[k] == s[k - 1] { }
  }

  lemma SingleSpacedTail(s: string)
    requires SingleSpaced(s) && s != []
    ensures SingleSpaced(s[1..])
  {
    forall k | 0 <= k < |s| - 1 ensures s[1..][k] == s[k + 1] { }
  }

  lemma SingleSpacedSlice(s: string, i: nat, j: nat)
    requires SingleSpaced(s) && i <= j <= |s|
    ensures SingleSpaced(s[i..j])
  {
    forall k | 0 <= k < j - i ensures s[i..j][k] == s[i + k] { }
  }

  lemma StripKeepsSingleSpaced(s: string)
    requires SingleSpaced(s)
    ensures SingleSpaced(Strip(s))
  {
    var i, j := StripIsSlice(s);
    SingleSpacedSlice(s, i, j);
  }

  /**
   * `re.sub(r'\s+', ' ', s)`: every maximal run of whitespace becomes one
   * space. Python's `\s` on `str` is the same character class as `str.isspace`.
   */
  function Collapse(s: string): string
    decreases |s|
  {
    if s == [] then []
    else if IsSpace(s[0]) then [' '] + Collapse(TrimLeft(s[1..], IsSpace))
    else [s[0]] + Collapse(s[1..])
  }

  /**
   * The substitution leaves no whitespace but single plain spaces, starts
   * with a space exactly when the text starts with whitespace, and keeps
   * every visible character in order.
   */
  lemma {:induction false} CollapseShape(s: string)
    ensures SingleSpaced(Collapse(s))
    ensures Collapse(s) == [] <==> s == []
    ensures s != [] ==> (Collapse(s)[0] == ' ' <==> IsSpace(s[0]))
    ensures NonSpace(Collapse(s)) == NonSpace(s)
    decreases |s|
  {
    if s != [] {
      if IsSpace(s[0]) {
        var t := TrimLeft(s[1..], IsSpace);
        CollapseShape(t);
        CollapseSpaceStep(s, Collapse(t));
      } else {
        CollapseShape(s[1..]);
        CollapseCharStep(s, Collapse(s[1..]));
      }
    }
  }

  /** The whitespace-run case of `Collapse`: one space, then the collapsed remainder. */
  lemma CollapseSpaceStep(s: string, rest: string)
    requires s != [] && IsSpace(s[0])
    requires SingleSpaced(rest)
    requires rest == [] || rest[0] != ' '
    requires NonSpace(rest) == NonSpace(TrimLeft(s[1..], IsSpace))
    ensures SingleSpaced([' '] + rest)
    ensures NonSpace([' '] + rest) == NonSpace(s)
  {
    SingleSpacedCons(' ', rest);
    NonSpaceCons(' ', rest);
    NonSpaceTrimLeft(s[1..]);
    assert s == [s[0]] + s[1..];
    NonSpaceCons(s[0], s[1..]);
  }

  /** The visible-character case of `Collapse`: the character is kept. */
  lemma CollapseCharStep(s: string, rest: string)
    requires s != [] && !IsSpace(s[0])
    requires SingleSpaced(rest)
    requires NonSpace(rest) == NonSpace(s[1..])
    ensures SingleSpaced([s[0]] + rest)
    ensures NonSpace([s[0]] + rest) == NonSpace(s)
  {
    SingleSpacedCons(s[0], rest);
    NonSpaceCons(s[0], rest);
    assert s == [s[0]] + s[1..];
    NonSpaceCons(s[0], s[1..]);
  }

  /** app/pdf_processor.py `_clean_text`. */
  function CleanText(s: string): (r: string)
    ensures Normal(r)
    ensures NonSpace(r) == NonSpace(s)
  {
    var c := Collapse(s);
    CollapseShape(s);
    StripKeepsSingleSpaced(c);
    NonSpaceStrip(c);
    Strip(c)
  }

  /** Single-spaced text is left alone by the substitution. */
  lemma {:induction false} CollapseOfSingleSpaced(s: string)
    requires SingleSpaced(s)
    ensures Collapse(s) == s
    decreases |s|
  {
    if s != [] {
      SingleSpacedTail(s);
      CollapseOfSingleSpaced(s[1..]);
      if IsSpace(s[0]) {
        SpaceNeedsNoTrim(s);
        assert Collapse(s) == [' '] + Collapse(s[1..]);
      } else {
        assert Collapse(s) == [s[0]] + Collapse(s[1..]);
      }
      assert s == [s[0]] + s[1..];
    }
  }

  /** In single-spaced text a space is a plain one and is not followed by whitespace. */
  lemma SpaceNeedsNoTrim(s: string)
    requires SingleSpaced(s) && s != [] && IsSpace(s[0])
    ensures s[0] == ' '
    ensures TrimLeft(s[1..], IsSpace) == s[1..]
  {
    if |s| > 1 {
      assert s[1] != ' ';
      assert s[1..][0] == s[1];
    }
    TrimLeftOfTrimmed(s[1..], IsSpace);
  }

  /** `_clean_text` fixes exactly the normal strings. */
  lemma NormalIffClean(s: string)
    ensures Normal(s) <==> CleanText(s) == s
  {
    if Normal(s) {
      CollapseOfSingleSpaced(s);
      StripIdempotentOnTrimmed(s);
    }
  }

  /** `_clean_text` is idempotent. */
  lemma CleanTextIdempotent(s: string)
    ensures CleanText(CleanText(s)) == CleanText(s)
  {
    NormalIffClean(CleanText(s));
  }

  /** Cleaning gives the empty string exactly for whitespace-only text. */
  lemma CleanTextEmptyIffBlank(s: string)
    ensures CleanText(s) == "" <==> IsBlank(s)
  {
    var r := CleanText(s);
    NonSpaceEmptyIffAllSpace(s);
    NonSpaceEmptyIffAllSpace(r);
    BlankIffAllSpace(s);
    if r != "" {
      assert !IsSpace(r[0]);
    }
  }

  // ---------------------------------------------------------------------
  // Input dispatch: a list of PDFs or a direct string
  // ---------------------------------------------------------------------

  /** What `extract_text()` returned for one page; `None` counts as "". */
  function PageText(page: Option<string>): string {
    match page
    case Some(t) => t
    case None => ""
  }

  /** The pages of one PDF, concatenated. */
  function DocText(pages: seq<Option<string>>): string
    decreases |pages|
  {
    if pages == [] then "" else PageText(pages[0]) + DocText(pages[1..])
  }

  lemma {:induction false} DocTextAppend(a: seq<Option<string>>, b: seq<Option<string>>)
    ensures DocText(a + b) == DocText(a) + DocText(b)
    decreases |a|
  {
    if a == [] {
      assert a + b == b;
    } else {
      assert (a + b)[0] == a[0];
      assert (a + b)[1..] == a[1..] + b;
      DocTextAppend(a[1..], b);
    }
  }

  /** A page without text is skipped: it adds nothing to the document's text. */
  lemma MissingPageAddsNothing(a: seq<Option<string>>, b: seq<Option<string>>)
    ensures DocText(a + [None] + b) == DocText(a + b)
  {
    var tail: seq<Option<string>> := [None] + b;
    assert a + [None] + b == a + tail;
    DocTextAppend(a, tail);
    assert tail[1..] == b;
    DocTextAppend(a, b);
  }

  /** Every PDF's pages in order. */
  function PdfsText(docs: seq<seq<Option<string>>>): string
    decreases |docs|
  {
    if docs == [] then "" else DocText(docs[0]) + PdfsText(docs[1..])
  }

  /** The two kinds of input `get_pdf_text` accepts. */
  datatype Source = Pdfs(docs: seq<seq<Option<string>>>) | Direct(text: string)

  /** app/pdf_processor.py `get_pdf_text`: both kinds of input end up cleaned. */
  function GetPdfText(src: Source): (r: string)
    ensures Normal(r)
    ensures src.Direct? ==> r == CleanText(src.text)
    ensures src.Pdfs? ==> r == CleanText(PdfsText(src.docs))
    ensures src.Pdfs? ==> NonSpace(r) == NonSpace(PdfsText(src.docs))
    ensures r == Join(Words(if src.Pdfs? then PdfsText(src.docs) else src.text), ' ')
  {
    CleanTextIsJoinedWords(if src.Pdfs? then PdfsText(src.docs) else src.text);
    match src
    case Pdfs(docs) => CleanText(PdfsText(docs))
    case Direct(text) => CleanText(text)
  }

  // ---------------------------------------------------------------------
  // The pipeline's empty guards
  // ---------------------------------------------------------------------

  const EmptyTextError: string := "Empty text provided for chunking"
  const NoChunksError: string := "No text chunks provided for vector store creation"
  const DefaultIndex: string := "faiss_index"

  /** `get_text_chunks`; `split` stands for `RecursiveCharacterTextSplitter.split_text`. */
  function GetTextChunks(text: string, split: string -> seq<string>): (r: Result<seq<string>, string>)
    ensures r.Failure? <==> IsBlank(text)
    ensures r.Failure? ==> r.error == EmptyTextError
    ensures r.Success? ==> r.value == split(text)
  {
    if IsBlank(text) then Failure(EmptyTextError) else Success(split(text))
  }

  /** The persisted index: its name and the texts it was built from. */
  datatype VectorStore = VectorStore(name: string, texts: seq<string>)

  /** `create_vector_store`: refuses an empty chunk list, else indexes every chunk. */
  function CreateVectorStore(chunks: seq<string>, name: string): (r: Result<VectorStore, string>)
    ensures r.Failure? <==> chunks == []
    ensures r.Failure? ==> r.error == NoChunksError
    ensures r.Success? ==> r.value.texts == chunks && r.value.name == name
  {
    if chunks == [] then Failure(NoChunksError) else Success(VectorStore(name, chunks))
  }

  /** What `process_input` leaves behind: the names and the index, if one was built. */
  datatype Processed = Processed(characters: seq<string>, store: Option<VectorStore>)

  // ---------------------------------------------------------------------
  // Words, prompt choice and the character list
  // ---------------------------------------------------------------------

  /** The longest prefix without whitespace. */
  function TakeWord(s: string): (w: string)
    ensures |w| <= |s| && w == s[..|w|]
    ensures forall k :: 0 <= k < |w| ==> !IsSpace(w[k])
    ensures |w| < |s| ==> IsSpace(s[|w|])
    ensures s != [] && !IsSpace(s[0]) ==> w != []
    decreases |s|
  {
    if s == [] || IsSpace(s[0]) then []
    else
      var rest := TakeWord(s[1..]);
      assert ([s[0]] + rest)[1..] == rest;
      [s[0]] + rest
  }

  /** A non-empty run of non-whitespace characters. */
  predicate IsWord(w: string) {
    w != [] && forall i :: 0 <= i < |w| ==> !IsSpace(w[i])
  }

  /** `str.split()` with no argument: the maximal runs of non-whitespace. */
  function Words(s: string): (ws: seq<string>)
    ensures forall k :: 0 <= k < |ws| ==> IsWord(ws[k])
    decreases |s|
  {
    var t := TrimLeft(s, IsSpace);
    if t == [] then []
    else
      var w := TakeWord(t);
      assert w != [];
      var rest := Words(t[|w|..]);
      WordsCons(w, rest);
      [w] + rest
  }

  lemma WordsCons(w: string, rest: seq<string>)
    requires w != [] && forall i :: 0 <= i < |w| ==> !IsSpace(w[i])
    requires forall k :: 0 <= k < |rest| ==> IsWord(rest[k])
    ensures forall k :: 0 <= k < |[w] + rest| ==> IsWord(([w] + rest)[k])
  {
    forall k | 0 <= k < |[w] + rest| ensures IsWord(([w] + rest)[k]) {
      if k > 0 {
        assert ([w] + rest)[k] == rest[k - 1];
      }
    }
  }

  /** A string without whitespace is its own visible part. */
  lemma {:induction false} NonSpaceOfWord(w: string)
    requires forall k :: 0 <= k < |w| ==> !IsSpace(w[k])
    ensures NonSpace(w) == w
    decreases |w|
  {
    if w != [] {
      NonSpaceOfWord(w[1..]);
    }
  }

  /** Concatenation of a list of strings. */
  function Concat(parts: seq<string>): string
    decreases |parts|
  {
    if parts == [] then "" else parts[0] + Concat(parts[1..])
  }

  /** The words are the visible characters of the text, cut at the whitespace. */
  lemma {:induction false} WordsCoverText(s: string)
    ensures Concat(Words(s)) == NonSpace(s)
    decreases |s|
  {
    var t := TrimLeft(s, IsSpace);
    NonSpaceTrimLeft(s);
    if t == [] {
    } else {
      var w := TakeWord(t);
      var rest := t[|w|..];
      NonSpaceOfWord(w);
      assert t == w + rest;
      NonSpaceAppend(w, rest);
      WordsCoverText(rest);
      var ws := Words(s);
      assert ws == [w] + Words(rest);
      assert ws[1..] == Words(rest);
    }
  }

  /** Text with no words at all is exactly whitespace-only text. */
  lemma NoWordsIffBlank(s: string)
    ensures Words(s) == [] <==> IsBlank(s)
  {
    var t := TrimLeft(s, IsSpace);
    BlankIffAllSpace(s);
    if t == [] {
      WordsCoverText(s);
      NonSpaceEmptyIffAllSpace(s);
    } else {
      assert !IsSpace(t[0]);
      assert t[0] == s[|s| - |t|];
    }
  }

  // ---------------------------------------------------------------------
  // The substitution, the cleaning and the words agree on word boundaries
  // ---------------------------------------------------------------------

  /** No whitespace anywhere in `w` (the empty string included). */
  predicate Unspaced(w: string) {
    forall k :: 0 <= k < |w| ==> !IsSpace(w[k])
  }

  /** Whitespace only (the empty string included). */
  predicate AllSpace(p: string) {
    forall k :: 0 <= k < |p| ==> IsSpace(p[k])
  }

  /** Concatenation regroups; stated on opaque arguments so no other fact is unfolded. */
  lemma AppendAssoc(a: string, b: string, c: string)
    ensures a + (b + c) == (a + b) + c
  {
  }

  /** A visible character passes through the substitution unchanged. */
  lemma CollapseVisible(c: char, r: string)
    requires !IsSpace(c)
    ensures Collapse([c] + r) == [c] + Collapse(r)
  {
    assert ([c] + r)[1..] == r;
  }

  /** A whitespace character starts a run, which becomes one space. */
  lemma CollapseSpace(c: char, r: string)
    requires IsSpace(c)
    ensures Collapse([c] + r) == " " + Collapse(TrimLeft(r, IsSpace))
  {
    assert ([c] + r)[1..] == r;
  }

  /** A run without whitespace passes through the substitution unchanged. */
  lemma {:induction false} CollapseUnspacedPrefix(w: string, r: string)
    requires Unspaced(w)
    ensures Collapse(w + r) == w + Collapse(r)
    decreases |w|
  {
    if w != [] {
      var c, v := w[0], w[1..];
      assert w == [c] + v;
      assert w + r == [c] + (v + r);
      CollapseVisible(c, v + r);
      CollapseUnspacedPrefix(v, r);
      AppendAssoc([c], v, Collapse(r));
    } else {
      assert w + r == r;
    }
  }

  /** A whole run of whitespace becomes a single space. */
  lemma CollapseSpaceRun(p: string, r: string)
    requires p != [] && AllSpace(p)
    requires r == [] || !IsSpace(r[0])
    ensures Collapse(p + r) == " " + Collapse(r)
  {
    var c, v := p[0], p[1..];
    assert p + r == [c] + (v + r);
    CollapseSpace(c, v + r);
    TrimLeftSkips(v, r, IsSpace);
    TrimLeftOfTrimmed(r, IsSpace);
  }

  /**
   * `re.sub(r'\s+', ' ', a + ws + b)` for a whitespace run `ws` between two
   * whitespace-free strings: the run becomes exactly one space and nothing
   * else changes.
   */
  lemma CollapseInnerRun(a: string, ws: string, b: string)
    requires Unspaced(a) && Unspaced(b)
    requires ws != [] && AllSpace(ws)
    ensures Collapse(a + ws + b) == a + " " + b
  {
    assert a + ws + b == a + (ws + b);
    CollapseUnspacedPrefix(a, ws + b);
    CollapseSpaceRun(ws, b);
    CollapseUnspacedPrefix(b, []);
    assert b + [] == b;
  }

  /** A word followed by whitespace or by nothing is what `TakeWord` takes. */
  lemma TakeWordOf(w: string, r: string)
    requires Unspaced(w)
    requires r == [] || IsSpace(r[0])
    ensures TakeWord(w + r) == w
  {
    var t := w + r;
    var x := TakeWord(t);
    assert x == t[..|w|];
  }

  /** Leading whitespace does not change the words. */
  lemma WordsTrimLeft(s: string)
    ensures Words(s) == Words(TrimLeft(s, IsSpace))
  {
    var t := TrimLeft(s, IsSpace);
    TrimLeftOfTrimmed(t, IsSpace);
  }

  /** One step of `Words` on text that starts with a visible character. */
  lemma WordsStep(t: string)
    requires t != [] && !IsSpace(t[0])
    ensures var w := TakeWord(t); Words(t) == [w] + Words(t[|w|..])
  {
    TrimLeftOfTrimmed(t, IsSpace);
  }

  /** Joining words with single spaces leaves nothing to strip at either end. */
  lemma {:induction false} JoinedWordsTrimmed(ws: seq<string>)
    requires forall k :: 0 <= k < |ws| ==> IsWord(ws[k])
    ensures var j := Join(ws, ' '); j == [] <==> ws == []
    ensures var j := Join(ws, ' '); j == [] || (!IsSpace(j[0]) && !IsSpace(j[|j| - 1]))
    decreases |ws|
  {
    if |ws| > 1 {
      assert IsWord(ws[0]);
      assert forall k :: 0 <= k < |ws[1..]| ==> ws[1..][k] == ws[k + 1];
      JoinedWordsTrimmed(ws[1..]);
    } else if |ws| == 1 {
      assert IsWord(ws[0]);
    }
  }

  /** " " if the text ends in whitespace, "" otherwise. */
  function TrailingSpace(t: string): string {
    if t != [] && IsSpace(t[|t| - 1]) then " " else ""
  }

  /** A word, a whitespace run, then text that starts with a visible character or is empty. */
  predicate WordRunThen(w: string, p: string, u: string) {
    && IsWord(w)
    && p != [] && AllSpace(p)
    && (u == [] || !IsSpace(u[0]))
  }

  /** The substitution keeps the word and turns the run into one space. */
  lemma CollapseWordRun(w: string, p: string, u: string)
    requires WordRunThen(w, p, u)
    ensures Collapse(w + p + u) == w + " " + Collapse(u)
  {
    AppendAssoc(w, p, u);
    CollapseUnspacedPrefix(w, p + u);
    CollapseSpaceRun(p, u);
    AppendAssoc(w, " ", Collapse(u));
  }

  /** The first word is the word; the run in front of the rest is skipped. */
  lemma WordsWordRun(w: string, p: string, u: string)
    requires WordRunThen(w, p, u)
    ensures Words(w + p + u) == [w] + Words(u)
  {
    var t := w + p + u;
    AppendAssoc(w, p, u);
    TakeWordOf(w, p + u);
    WordsStep(t);
    assert t[|w|..] == p + u;
    WordsTrimLeft(p + u);
    TrimLeftSkips(p, u, IsSpace);
    TrimLeftOfTrimmed(u, IsSpace);
  }

  /** A lone word is its own single word. */
  lemma WordsOfWord(w: string)
    requires IsWord(w)
    ensures Words(w) == [w]
  {
    assert w + [] == w;
    TakeWordOf(w, []);
    WordsStep(w);
    TrimLeftOfTrimmed([], IsSpace);
  }

  /** `CollapseIsJoinedWords` for a text that is a single word. */
  lemma CollapseJoinedWord(w: string)
    requires IsWord(w)
    ensures Collapse(w) == Join(Words(w), ' ') + TrailingSpace(w)
  {
    WordsOfWord(w);
    CollapseUnspacedPrefix(w, []);
    assert w + [] == w;
  }

  /** `CollapseIsJoinedWords` for a word followed by a whitespace run and nothing else. */
  lemma CollapseJoinedWordRun(w: string, p: string)
    requires WordRunThen(w, p, [])
    ensures Collapse(w + p) == Join(Words(w + p), ' ') + TrailingSpace(w + p)
  {
    assert w + p + [] == w + p;
    CollapseWordRun(w, p, []);
    WordsWordRun(w, p, []);
    TrimLeftOfTrimmed([], IsSpace);
    assert [w] + [] == [w];
    TrailingSpaceOfSuffix(w, p);
  }

  /** `CollapseIsJoinedWords` for a word, a run and more words, given it for the rest. */
  lemma CollapseJoinedMore(w: string, p: string, u: string)
    requires WordRunThen(w, p, u) && u != []
    requires Collapse(u) == Join(Words(u), ' ') + TrailingSpace(u)
    ensures Collapse(w + p + u) == Join(Words(w + p + u), ' ') + TrailingSpace(w + p + u)
  {
    var t := w + p + u;
    CollapseWordRun(w, p, u);
    WordsWordRun(w, p, u);
    WordsStep(u);
    JoinCons(w, Words(u));
    TrailingSpaceOfSuffix(w + p, u);
    SpliceAlgebra(Collapse(t), w, Collapse(u), Join(Words(t), ' '), Join(Words(u), ' '), TrailingSpace(t), TrailingSpace(u));
  }

  /**
   * On text that does not start with whitespace, the substitution yields the
   * words joined by single spaces, plus one space if the text ends in
   * whitespace.
   */
  lemma {:induction false} CollapseIsJoinedWords(t: string)
    requires t == [] || !IsSpace(t[0])
    ensures Collapse(t) == Join(Words(t), ' ') + TrailingSpace(t)
    decreases |t|
  {
    if t == [] {
      TrimLeftOfTrimmed(t, IsSpace);
    } else {
      var w, p, u := FirstWord(t);
      if p == [] {
        CollapseJoinedWord(w);
      } else if u == [] {
        CollapseJoinedWordRun(w, p);
      } else {
        CollapseIsJoinedWords(u);
        CollapseJoinedMore(w, p, u);
      }
    }
  }

  /**
   * Text starting with a visible character is its first word, then either
   * nothing or a whitespace run and the rest.
   */
  lemma FirstWord(t: string) returns (w: string, p: string, u: string)
    requires t != [] && !IsSpace(t[0])
    ensures p == [] ==> u == [] && IsWord(w) && t == w
    ensures p != [] ==> WordRunThen(w, p, u) && t == w + p + u && (u == [] ==> t == w + p)
    ensures |u| < |t|
  {
    w := TakeWord(t);
    var rest := t[|w|..];
    assert t == w + rest;
    assert IsWord(w);
    if rest == [] {
      p, u := [], [];
    } else {
      assert IsSpace(rest[0]);
      p, u := SpaceRun(rest);
      AppendAssoc(w, p, u);
    }
  }

  /** Text is its leading whitespace run, then the rest. */
  lemma SpaceRun(s: string) returns (p: string, t: string)
    ensures s == p + t && AllSpace(p)
    ensures t == TrimLeft(s, IsSpace)
    ensures t == [] || !IsSpace(t[0])
    ensures s != [] && IsSpace(s[0]) ==> p != []
  {
    t := TrimLeft(s, IsSpace);
    p := s[..|s| - |t|];
    assert s == p + t;
    assert AllSpace(p) by {
      TrimLeftDropsOnly(s, IsSpace);
      forall k | 0 <= k < |p| ensures IsSpace(p[k]) {
        assert p[k] == s[k];
      }
    }
  }

  /** Joining one more part in front adds it and one separator. */
  lemma JoinCons(w: string, ws: seq<string>)
    requires ws != []
    ensures Join([w] + ws, ' ') == w + " " + Join(ws, ' ')
  {
    assert ([w] + ws)[1..] == ws;
  }

  /** Only the last character decides the trailing space. */
  lemma TrailingSpaceOfSuffix(x: string, u: string)
    requires u != []
    ensures TrailingSpace(x + u) == TrailingSpace(u)
  {
    assert (x + u)[|x + u| - 1] == u[|u| - 1];
  }

  /** The string algebra of one word-and-run step. */
  lemma SpliceAlgebra(ct: string, w: string, cu: string, jt: string, ju: string, tst: string, tsu: string)
    requires ct == w + " " + cu && cu == ju + tsu
    requires jt == w + " " + ju && tst == tsu
    ensures ct == jt + tst
  {
  }

  /** app/pdf_processor.py `_clean_text` is `' '.join(s.split())`. */
  lemma CleanTextIsJoinedWords(s: string)
    ensures CleanText(s) == Join(Words(s), ' ')
  {
    StripCollapseIsJoinedWords(s);
  }

  /** The body of `CleanTextIsJoinedWords`, kept apart from the cleaned text's own guarantees. */
  lemma StripCollapseIsJoinedWords(s: string)
    ensures Strip(Collapse(s)) == Join(Words(s), ' ')
  {
    var p, t := LeadingSpace(s);
    if p != [] {
      CollapseSpaceRun(p, t);
      StripCollapseAfterRun(Collapse(s), t);
    } else {
      assert s == t;
      StripCollapseNoRun(t);
    }
  }

  /** `StripCollapseIsJoinedWords` for text whose leading whitespace became one space. */
  lemma StripCollapseAfterRun(c: string, t: string)
    requires t == [] || !IsSpace(t[0])
    requires c == " " + Collapse(t)
    ensures Strip(c) == Join(Words(t), ' ')
  {
    var d, j, trail := Collapse(t), Join(Words(t), ' '), TrailingSpace(t);
    assert d == j + trail by { CollapseIsJoinedWords(t); }
    assert j == [] || (!IsSpace(j[0]) && !IsSpace(j[|j| - 1])) by { JoinedWordsTrimmed(Words(t)); }
    assert AllSpace(trail) by { TrailingSpaceIsSpace(t); }
    StripPadded(c, d, j, trail);
  }

  /** `StripCollapseIsJoinedWords` for text without leading whitespace. */
  lemma StripCollapseNoRun(t: string)
    requires t == [] || !IsSpace(t[0])
    ensures Strip(Collapse(t)) == Join(Words(t), ' ')
  {
    var d, j, trail := Collapse(t), Join(Words(t), ' '), TrailingSpace(t);
    assert d == j + trail by { CollapseIsJoinedWords(t); }
    assert j == [] || (!IsSpace(j[0]) && !IsSpace(j[|j| - 1])) by { JoinedWordsTrimmed(Words(t)); }
    assert AllSpace(trail) by { TrailingSpaceIsSpace(t); }
    StripTrailed(d, j, trail);
  }

  lemma TrailingSpaceIsSpace(t: string)
    ensures AllSpace(TrailingSpace(t))
  {
  }

  /** Text followed by whitespace strips to the text. */
  lemma StripTrailed(c: string, j: string, trail: string)
    requires AllSpace(trail)
    requires j == [] || (!IsSpace(j[0]) && !IsSpace(j[|j| - 1]))
    requires c == j + trail
    ensures Strip(c) == j
  {
    assert c == [] + j + trail;
    StripSurrounded([], j, trail);
  }

  /** One space, then text followed by whitespace, strips to the text. */
  lemma StripPadded(c: string, d: string, j: string, trail: string)
    requires AllSpace(trail)
    requires j == [] || (!IsSpace(j[0]) && !IsSpace(j[|j| - 1]))
    requires c == " " + d && d == j + trail
    ensures Strip(c) == j
  {
    AppendAssoc(" ", j, trail);
    StripSurrounded(" ", j, trail);
  }

  /** Text is its leading whitespace, then text with the same words and no leading whitespace. */
  lemma LeadingSpace(s: string) returns (p: string, t: string)
    ensures s == p + t && AllSpace(p)
    ensures t == [] || !IsSpace(t[0])
    ensures Words(s) == Words(t)
  {
    p, t := SpaceRun(s);
    WordsTrimLeft(s);
  }

  /** Splitting single-space-joined words gives the words back. */
  lemma {:induction false} WordsOfJoin(ws: seq<string>)
    requires forall k :: 0 <= k < |ws| ==> IsWord(ws[k])
    ensures Words(Join(ws, ' ')) == ws
    decreases |ws|
  {
    if ws == [] {
      TrimLeftOfTrimmed([], IsSpace);
    } else if |ws| == 1 {
      assert IsWord(ws[0]);
      WordsOfWord(ws[0]);
    } else {
      var w, more := ws[0], ws[1..];
      assert IsWord(w);
      assert forall k :: 0 <= k < |more| ==> more[k] == ws[k + 1];
      JoinedWordsTrimmed(more);
      WordsWordRun(w, [' '], Join(more, ' '));
      WordsOfJoin(more);
      assert ws == [w] + more;
    }
  }

  /** The two extraction prompts; which one is chosen depends on the word count. */
  datatype Prompt = ShortPrompt(text: string) | LongPrompt(text: string)

  const ShortTextWords: nat := 50

  /** The prompt `extract_characters` sends. */
  function ChoosePrompt(text: string): (p: Prompt)
    ensures p.text == text
    ensures p.ShortPrompt? <==> |Words(text)| < ShortTextWords
  {
    if |Words(text)| < ShortTextWords then ShortPrompt(text) else LongPrompt(text)
  }

  /** Whitespace-only text always gets the short prompt. */
  lemma BlankTextGetsShortPrompt(text: string)
    requires IsBlank(text)
    ensures ChoosePrompt(text).ShortPrompt?
  {
    NoWordsIffBlank(text);
  }

  /** The stripped segments, one per segment. */
  function StripAll(segs: seq<string>): (r: seq<string>)
    ensures |r| == |segs|
    ensures forall k :: 0 <= k < |segs| ==> r[k] == Strip(segs[k])
  {
    seq(|segs|, k requires 0 <= k < |segs| => Strip(segs[k]))
  }

  /** A non-empty string with nothing to strip. */
  predicate IsStrippedName(x: string) {
    x != "" && Strip(x) == x
  }

  /** `[c.strip() for c in segs if c.strip()]`. */
  function NonBlankSegments(segs: seq<string>): (r: seq<string>)
    ensures |r| <= |segs|
    ensures forall k :: 0 <= k < |r| ==> IsStrippedName(r[k])
    decreases |segs|
  {
    if segs == [] then []
    else if IsBlank(segs[0]) then NonBlankSegments(segs[1..])
    else
      var x := Strip(segs[0]);
      var rest := NonBlankSegments(segs[1..]);
      StripIdempotent(segs[0]);
      KeptNamesCons(x, rest);
      [x] + rest
  }

  /** A stripped name in front of stripped names. */
  lemma KeptNamesCons(x: string, rest: seq<string>)
    requires IsStrippedName(x)
    requires forall k :: 0 <= k < |rest| ==> IsStrippedName(rest[k])
    ensures forall k :: 0 <= k < |[x] + rest| ==> IsStrippedName(([x] + rest)[k])
  {
    forall k | 0 < k < |[x] + rest| ensures ([x] + rest)[k] == rest[k - 1] { }
  }

  /** Segment `k` is not blank and strips to `x`. */
  predicate Yields(segs: seq<string>, k: int, x: string) {
    0 <= k < |segs| && !IsBlank(segs[k]) && Strip(segs[k]) == x
  }

  /** Every kept name is the strip of some non-blank segment. */
  lemma {:induction false} KeptNameHasSegment(segs: seq<string>, x: string)
    requires x in NonBlankSegments(segs)
    ensures exists k :: Yields(segs, k, x)
    decreases |segs|
  {
    if !IsBlank(segs[0]) && x == Strip(segs[0]) {
      assert Yields(segs, 0, x);
    } else {
      KeptNameHasSegment(segs[1..], x);
      var k :| Yields(segs[1..], k, x);
      assert segs[1..][k] == segs[k + 1];
      assert Yields(segs, k + 1, x);
    }
  }

  /** The strip of every non-blank segment is kept. */
  lemma {:induction false} SegmentIsKept(segs: seq<string>, k: int, x: string)
    requires Yields(segs, k, x)
    ensures x in NonBlankSegments(segs)
    decreases |segs|
  {
    var rest := NonBlankSegments(segs[1..]);
    NonBlankSegmentsUnfold(segs);
    if k == 0 {
      assert NonBlankSegments(segs) == [x] + rest;
    } else {
      assert segs[1..][k - 1] == segs[k];
      SegmentIsKept(segs[1..], k - 1, x);
    }
  }

  /** One step of the filter: the first segment's strip, if not blank, then the rest. */
  lemma NonBlankSegmentsUnfold(segs: seq<string>)
    requires segs != []
    ensures NonBlankSegments(segs) ==
              (if IsBlank(segs[0]) then [] else [Strip(segs[0])]) + NonBlankSegments(segs[1..])
  {
  }

  /** A name is kept exactly when it is the strip of some non-blank segment. */
  lemma NonBlankSegmentsMembers(segs: seq<string>, x: string)
    ensures x in NonBlankSegments(segs) <==> exists k :: Yields(segs, k, x)
  {
    if x in NonBlankSegments(segs) {
      KeptNameHasSegment(segs, x);
    }
    if k :| Yields(segs, k, x) {
      SegmentIsKept(segs, k, x);
    }
  }

  /** The kept names keep the order of their segments. */
  lemma {:induction false} NonBlankSegmentsOrdered(segs: seq<string>)
    ensures IsSubsequence(NonBlankSegments(segs), StripAll(segs))
    decreases |segs|
  {
    if segs != [] {
      NonBlankSegmentsOrdered(segs[1..]);
      assert StripAll(segs)[1..] == StripAll(segs[1..]);
      if !IsBlank(segs[0]) {
        var r := NonBlankSegments(segs);
        assert r[1..] == NonBlankSegments(segs[1..]);
      }
    }
  }

  /** Segments without commas stay without commas once stripped. */
  lemma NonBlankSegmentsHaveNoComma(segs: seq<string>)
    requires forall k :: 0 <= k < |segs| ==> ',' !in segs[k]
    ensures forall k :: 0 <= k < |NonBlankSegments(segs)| ==> ',' !in NonBlankSegments(segs)[k]
  {
    var r := NonBlankSegments(segs);
    forall k | 0 <= k < |r| ensures ',' !in r[k] {
      NonBlankSegmentsMembers(segs, r[k]);
      var j :| Yields(segs, j, r[k]);
      StripKeepsAbsent(segs[j], ',');
    }
  }

  /** The answer meaning "no story here". */
  const NoCharactersFound: string := "NO_CHARACTERS_FOUND"

  /** The names a list answer yields, with the guarantees both list parsers share. */
  predicate WellFormedNames(names: seq<string>, list: string) {
    && |names| <= Count(list, ',') + 1
    && forall k :: 0 <= k < |names| ==> IsStrippedName(names[k]) && ',' !in names[k]
  }

  lemma NonBlankSegmentsWellFormed(list: string)
    ensures WellFormedNames(NonBlankSegments(Split(list, ',')), list)
  {
    NonBlankSegmentsHaveNoComma(Split(list, ','));
  }

  /** app/pdf_processor.py: the answer after `extract_characters` called the model. */
  function ParseCharacterList(response: string): (names: seq<string>)
    ensures Strip(response) == NoCharactersFound ==> names == []
    ensures Strip(response) != NoCharactersFound ==> names == NonBlankSegments(Split(Strip(response), ','))
    ensures WellFormedNames(names, Strip(response))
  {
    var t := Strip(response);
    NonBlankSegmentsWellFormed(t);
    if t == NoCharactersFound then [] else NonBlankSegments(Split(t, ','))
  }

  /** pdf_processor.py: the same list parsing, without the sentinel or the outer strip. */
  function ParseCharacterListLegacy(response: string): (names: seq<string>)
    ensures WellFormedNames(names, response)
  {
    NonBlankSegmentsWellFormed(response);
    NonBlankSegments(Split(response, ','))
  }

  /**
   * The names pdf_processor.py keeps are the stripped non-blank segments of
   * the answer, in their original order, and nothing else.
   */
  lemma LegacyNamesAreSegments(response: string, segs: seq<string>, x: string)
    requires segs == Split(response, ',')
    ensures IsSubsequence(ParseCharacterListLegacy(response), StripAll(segs))
    ensures x in ParseCharacterListLegacy(response) <==> exists k :: Yields(segs, k, x)
  {
    NonBlankSegmentsOrdered(segs);
    NonBlankSegmentsMembers(segs, x);
  }

  /** app/pdf_processor.py `extract_characters`; `invoke` stands for the model. */
  function ExtractCharacters(text: string, invoke: Prompt -> string): (names: seq<string>)
    ensures names == ParseCharacterList(invoke(ChoosePrompt(text)))
    ensures WellFormedNames(names, Strip(invoke(ChoosePrompt(text))))
  {
    ParseCharacterList(invoke(ChoosePrompt(text)))
  }

  /** app/pdf_processor.py `process_input`: blank text stops before chunking. */
  function ProcessInput(text: string, split: string -> seq<string>, invoke: Prompt -> string): (r: Result<Processed, string>)
    ensures IsBlank(text) ==> r == Success(Processed([], None))
    ensures !IsBlank(text) && split(text) == [] ==> r == Failure(NoChunksError)
    ensures !IsBlank(text) && split(text) != [] ==>
              r == Success(Processed(ExtractCharacters(text, invoke), Some(VectorStore(DefaultIndex, split(text)))))
  {
    if IsBlank(text) then Success(Processed([], None))
    else
      match GetTextChunks(text, split)
      case Failure(e) => Failure(e)
      case Success(chunks) =>
        match CreateVectorStore(chunks, DefaultIndex)
        case Failure(e) => Failure(e)
        case Success(store) => Success(Processed(ExtractCharacters(text, invoke), Some(store)))
  }

  /** Whatever `process_input` returns as names satisfies the list guarantees. */
  lemma ProcessedNamesWellFormed(text: string, split: string -> seq<string>, invoke: Prompt -> string)
    requires ProcessInput(text, split, invoke).Success?
    ensures var names := ProcessInput(text, split, invoke).value.characters;
            forall k :: 0 <= k < |names| ==> names[k] != "" && ',' !in names[k]
  {
    if !IsBlank(text) {
      var names := ExtractCharacters(text, invoke);
      assert WellFormedNames(names, Strip(invoke(ChoosePrompt(text))));
    }
  }
}
