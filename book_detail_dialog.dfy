/** The book detail dialog's download action: the file name a book's title is
    saved under, and the "downloading" flag that disables the button while a
    download is under way. */
module BookDetailDialog {
  import opened Wrappers
  import opened Records

  /** `\w` of an ECMAScript regular expression without the `u` flag. */
  predicate IsWordChar(c: char) {
    'A' <= c <= 'Z' || 'a' <= c <= 'z' || '0' <= c <= '9' || c == '_'
  }

  /** `\s` of an ECMAScript regular expression: the white space characters
      (tab, vertical tab, form feed, the byte order mark and the space
      separators) and the line terminators. */
  predicate IsSpace(c: char) {
    || c == '\t' || c == '\n' || c == '\U{000B}' || c == '\U{000C}' || c == '\r'
    || c == ' ' || c == '\U{00A0}' || c == '\U{1680}'
    || ('\U{2000}' <= c <= '\U{200A}')
    || c == '\U{2028}' || c == '\U{2029}' || c == '\U{202F}' || c == '\U{205F}'
    || c == '\U{3000}' || c == '\U{FEFF}'
  }

  /** The first replacement, `/[^\w\s]/gi` to `_`: every character that is
      neither a word character nor white space becomes an underscore. */
  function ReplaceSpecials(s: string): (r: string)
    ensures |r| == |s|
    ensures forall i :: 0 <= i < |r| ==> IsWordChar(r[i]) || IsSpace(r[i])
    ensures forall i :: 0 <= i < |r| ==> (IsSpace(r[i]) <==> IsSpace(s[i]))
    ensures forall i :: 0 <= i < |r| ==> r[i] == if IsWordChar(s[i]) || IsSpace(s[i]) then s[i] else '_'
  {
    if s == [] then []
    else [if IsWordChar(s[0]) || IsSpace(s[0]) then s[0] else '_'] + ReplaceSpecials(s[1..])
  }

  /** What a greedy `\s+` consumes after its first character: the leading
      white space of `s` is dropped. */
  function DropSpaces(s: string): (r: string)
    ensures |r| <= |s| && r == s[|s| - |r|..]
    ensures r == [] || !IsSpace(r[0])
    ensures forall i :: 0 <= i < |s| - |r| ==> IsSpace(s[i])
  {
    if s != [] && IsSpace(s[0]) then DropSpaces(s[1..]) else s
  }

  /** The second replacement, `/\s+/g` to `_`: scanning from the left, each
      maximal run of white space becomes a single underscore. */
  function CollapseSpaces(s: string): (r: string)
    ensures |r| <= |s|
    ensures forall i :: 0 <= i < |r| ==> !IsSpace(r[i])
    ensures (forall i :: 0 <= i < |s| ==> IsWordChar(s[i]) || IsSpace(s[i])) ==>
              forall i :: 0 <= i < |r| ==> IsWordChar(r[i])
    decreases |s|
  {
    if s == [] then []
    else if IsSpace(s[0]) then "_" + CollapseSpaces(DropSpaces(s[1..]))
    else [s[0]] + CollapseSpaces(s[1..])
  }

  /** The part of the download name before ".pdf". */
  function DownloadStem(title: string): (stem: string)
    ensures |stem| <= |title|
  {
    CollapseSpaces(ReplaceSpecials(title))
  }

  /** The stem is made of word characters only. */
  lemma StemWordChars(title: string)
    ensures forall i :: 0 <= i < |DownloadStem(title)| ==> IsWordChar(DownloadStem(title)[i])
  {
  }

  /** The name the book is saved under: the title with both replacements, then ".pdf". */
  function DownloadFileName(title: string): (name: string)
    ensures |name| >= 4 && name[|name| - 4..] == ".pdf"
    ensures forall i :: 0 <= i < |name| - 4 ==> IsWordChar(name[i])
    ensures |name| <= |title| + 4
  {
    StemWordChars(title);
    DownloadStem(title) + ".pdf"
  }

  /** A reference for the second replacement, one character at a time: a white
      space character followed by another one disappears, every other white
      space character becomes an underscore, the rest is kept. */
  function CollapseByPairs(s: string): string {
    if s == [] then []
    else if |s| >= 2 && IsSpace(s[0]) && IsSpace(s[1]) then CollapseByPairs(s[1..])
    else [if IsSpace(s[0]) then '_' else s[0]] + CollapseByPairs(s[1..])
  }

  /** The number of positions where two white space characters meet. */
  function SpacePairs(s: string): nat {
    if |s| < 2 then 0
    else (if IsSpace(s[0]) && IsSpace(s[1]) then 1 else 0) + SpacePairs(s[1..])
  }

  lemma {:induction false} PairsAtSpace(s: string)
    requires s != [] && IsSpace(s[0])
    ensures CollapseByPairs(s) == "_" + CollapseByPairs(DropSpaces(s[1..]))
    decreases |s|
  {
    if |s| >= 2 && IsSpace(s[1]) {
      PairsAtSpace(s[1..]);
      assert s[1..][1..] == s[2..];
    }
  }

  /** The left-to-right replacement of maximal runs agrees with the reference. */
  lemma {:induction false} CollapseMatchesPairs(s: string)
    ensures CollapseSpaces(s) == CollapseByPairs(s)
    decreases |s|
  {
    if s == [] {
    } else if IsSpace(s[0]) {
      PairsAtSpace(s);
      CollapseMatchesPairs(DropSpaces(s[1..]));
    } else {
      CollapseMatchesPairs(s[1..]);
    }
  }

  lemma {:induction false} PairsLength(s: string)
    ensures |CollapseByPairs(s)| == |s| - SpacePairs(s)
    decreases |s|
  {
    if s != [] {
      PairsLength(s[1..]);
    }
  }

  lemma {:induction false} SpacePairsOfSameSpaces(s: string, t: string)
    requires |s| == |t|
    requires forall i :: 0 <= i < |s| ==> (IsSpace(s[i]) <==> IsSpace(t[i]))
    ensures SpacePairs(s) == SpacePairs(t)
    decreases |s|
  {
    if |s| >= 2 {
      assert IsSpace(s[0]) <==> IsSpace(t[0]);
      assert IsSpace(s[1]) <==> IsSpace(t[1]);
      SpacePairsOfSameSpaces(s[1..], t[1..]);
    }
  }

  /** The stem loses exactly one character per pair of adjacent white space
      characters in the title, so it is as long as the title exactly when no
      two white space characters meet. */
  lemma StemLength(title: string)
    ensures |DownloadStem(title)| == |title| - SpacePairs(title)
    ensures |DownloadStem(title)| == |title| <==> SpacePairs(title) == 0
  {
    var replaced := ReplaceSpecials(title);
    CollapseMatchesPairs(replaced);
    PairsLength(replaced);
    SpacePairsOfSameSpaces(replaced, title);
  }

  lemma {:induction false} CollapseKeepsWords(s: string)
    requires forall i :: 0 <= i < |s| ==> !IsSpace(s[i])
    ensures CollapseSpaces(s) == s
    decreases |s|
  {
    if s != [] {
      CollapseKeepsWords(s[1..]);
    }
  }

  /** A title is its own stem exactly when it is made of word characters only. */
  lemma WordTitleUnchanged(title: string)
    ensures DownloadStem(title) == title <==> forall i :: 0 <= i < |title| ==> IsWordChar(title[i])
  {
    if forall i :: 0 <= i < |title| ==> IsWordChar(title[i]) {
      assert ReplaceSpecials(title) == title;
      CollapseKeepsWords(title);
    }
  }

  lemma {:induction false} ReplaceSpecialsAppend(a: string, b: string)
    ensures ReplaceSpecials(a + b) == ReplaceSpecials(a) + ReplaceSpecials(b)
  {
    var l, r := ReplaceSpecials(a + b), ReplaceSpecials(a) + ReplaceSpecials(b);
    assert |l| == |r|;
    forall i | 0 <= i < |l| ensures l[i] == r[i] {
      if i < |a| {
        assert (a + b)[i] == a[i];
      } else {
        assert (a + b)[i] == b[i - |a|];
      }
    }
  }

  lemma {:induction false} PairsAppend(a: string, b: string)
    requires a == [] || b == [] || !IsSpace(a[|a| - 1]) || !IsSpace(b[0])
    ensures CollapseByPairs(a + b) == CollapseByPairs(a) + CollapseByPairs(b)
    decreases |a|
  {
    if a == [] {
      assert a + b == b;
    } else {
      assert (a + b)[1..] == a[1..] + b;
      assert (a + b)[0] == a[0];
      if |a| == 1 {
        assert a[1..] == [];
      } else {
        assert (a + b)[1] == a[1];
        PairsAppend(a[1..], b);
      }
    }
  }

  /** Two pieces of a title are named independently unless white space meets
      white space where they join. */
  lemma StemAppend(a: string, b: string)
    requires a == [] || b == [] || !IsSpace(a[|a| - 1]) || !IsSpace(b[0])
    ensures DownloadStem(a + b) == DownloadStem(a) + DownloadStem(b)
  {
    var ra, rb := ReplaceSpecials(a), ReplaceSpecials(b);
    ReplaceSpecialsAppend(a, b);
    CollapseMatchesPairs(ra + rb);
    CollapseMatchesPairs(ra);
    CollapseMatchesPairs(rb);
    PairsAppend(ra, rb);
  }

  lemma {:induction false} PairsOfSpaces(w: string)
    requires w != [] && forall i :: 0 <= i < |w| ==> IsSpace(w[i])
    ensures CollapseByPairs(w) == "_"
    decreases |w|
  {
    if |w| >= 2 {
      PairsOfSpaces(w[1..]);
    }
  }

  /** A maximal run of white space between two pieces becomes one underscore. */
  lemma SpaceRunBecomesUnderscore(a: string, w: string, b: string)
    requires a == [] || !IsSpace(a[|a| - 1])
    requires b == [] || !IsSpace(b[0])
    requires w != [] && forall i :: 0 <= i < |w| ==> IsSpace(w[i])
    ensures DownloadStem(a + w + b) == DownloadStem(a) + "_" + DownloadStem(b)
  {
    StemAppend(a, w);
    StemAppend(a + w, b);
    var rw := ReplaceSpecials(w);
    CollapseMatchesPairs(rw);
    PairsOfSpaces(rw);
  }

  lemma SingleCharStem(c: char)
    ensures DownloadStem([c]) == if IsWordChar(c) then [c] else "_"
  {
    assert [c][1..] == [];
    if IsSpace(c) {
      assert DropSpaces([c][1..]) == [];
    }
  }

  lemma PairsOfSpacedMark(x: string, y: string)
    requires x == [] || !IsSpace(x[|x| - 1])
    requires y == [] || !IsSpace(y[0])
    ensures CollapseByPairs(x + " _ " + y) == CollapseByPairs(x) + "___" + CollapseByPairs(y)
  {
    assert " _ "[1..] == "_ " && "_ "[1..] == " " && " "[1..] == [];
    assert CollapseByPairs(" _ ") == "___";
    PairsAppend(x, " _ ");
    PairsAppend(x + " _ ", y);
  }

  /** Punctuation is replaced before white space collapses, so a punctuation
      mark between two single spaces (as in "a - b") leaves three underscores. */
  lemma PunctuationBetweenSpaces(a: string, c: char, b: string)
    requires a == [] || !IsSpace(a[|a| - 1])
    requires b == [] || !IsSpace(b[0])
    requires !IsWordChar(c) && !IsSpace(c)
    ensures DownloadStem(a + [' ', c, ' '] + b) == DownloadStem(a) + "___" + DownloadStem(b)
  {
    var ra, rb := ReplaceSpecials(a), ReplaceSpecials(b);
    ReplaceSpecialsAppend(a + [' ', c, ' '], b);
    ReplaceSpecialsAppend(a, [' ', c, ' ']);
    assert ReplaceSpecials([' ', c, ' ']) == " _ ";
    assert ra == [] || !IsSpace(ra[|ra| - 1]);
    assert rb == [] || !IsSpace(rb[0]);
    PairsOfSpacedMark(ra, rb);
    CollapseMatchesPairs(ra + " _ " + rb);
    CollapseMatchesPairs(ra);
    CollapseMatchesPairs(rb);
  }

  lemma DashTitleParts()
    ensures "a" + [' ', '-', ' '] + "b" == "a - b"
    ensures "a" + "___" + "b" + ".pdf" == "a___b.pdf"
  {
  }

  /** The title "a - b" is saved as "a___b.pdf". */
  lemma DashBetweenSpaces()
    ensures DownloadFileName("a - b") == "a___b.pdf"
  {
    SingleCharStem('a');
    SingleCharStem('b');
    PunctuationBetweenSpaces("a", '-', "b");
    DashTitleParts();
  }

  // The download flag

  /** What `fetch` of the book's file settles to. */
  datatype FetchOutcome = Rejected | Responded(status: nat)

  /** A response is `ok` for a 2xx status. */
  predicate IsOk(status: nat) {
    200 <= status <= 299
  }

  /** What `handleDownload` throws. */
  datatype DownloadError = FetchRejected | BadStatus(message: string)

  function DigitChar(d: nat): (c: char)
    requires d < 10
    ensures '0' <= c <= '9'
  {
    ['0', '1', '2', '3', '4', '5', '6', '7', '8', '9'][d]
  }

  /** A number as a template literal writes it: decimal digits, no leading zero. */
  function NatToString(n: nat): (s: string)
    ensures |s| >= 1
    ensures forall i :: 0 <= i < |s| ==> '0' <= s[i] <= '9'
    ensures |s| > 1 ==> s[0] != '0'
    decreases n
  {
    if n < 10 then [DigitChar(n)] else NatToString(n / 10) + [DigitChar(n % 10)]
  }

  /** The value of a string of decimal digits. */
  function DecimalValue(s: string): nat
    requires forall i :: 0 <= i < |s| ==> '0' <= s[i] <= '9'
  {
    if s == [] then 0
    else DecimalValue(s[..|s| - 1]) * 10 + (s[|s| - 1] as int - '0' as int)
  }

  lemma {:induction false} NatToStringRoundTrip(n: nat)
    ensures DecimalValue(NatToString(n)) == n
    decreases n
  {
    var s := NatToString(n);
    if n >= 10 {
      NatToStringRoundTrip(n / 10);
      assert s[..|s| - 1] == NatToString(n / 10);
    }
    assert DigitChar(n % 10) as int - '0' as int == n % 10;
  }

  function StatusMessage(status: nat): string {
    "Download failed with status: " + NatToString(status)
  }

  /** The dialog's download button. `pending` is the book whose file is being
      fetched while `handleDownload` awaits the response, and `cleanupPending`
      says that the clean-up timer is scheduled. */
  class DownloadButton {
    var isDownloading: bool
    var pending: Option<Book>
    var cleanupPending: bool
    /** The file URLs fetched so far, in order. */
    var fetched: seq<string>
    /** The names under which the files were saved, in order. */
    var saved: seq<string>

    /** At most one download is under way, and only while the flag is set. */
    ghost predicate Valid()
      reads this
    {
      && (pending.Some? ==> isDownloading && !cleanupPending)
      && (cleanupPending ==> isDownloading)
    }

    /** The button is disabled while the flag is set. */
    predicate Disabled()
      reads this
    {
      isDownloading
    }

    constructor ()
      ensures Valid() && !Disabled()
      ensures pending.None? && !cleanupPending && fetched == [] && saved == []
    {
      isDownloading := false;
      pending := None;
      cleanupPending := false;
      fetched := [];
      saved := [];
    }

    /** A click: ignored while the button is disabled; otherwise the flag is
        set and the book's file is requested. */
    method Click(book: Book)
      requires Valid()
      modifies this
      ensures Valid()
      ensures old(Disabled()) ==> unchanged(this)
      ensures !old(Disabled()) ==>
        && Disabled() && pending == Some(book) && !cleanupPending
        && fetched == old(fetched) + [book.file] && saved == old(saved)
    {
      if isDownloading {
        return;
      }
      isDownloading := true;
      pending := Some(book);
      fetched := fetched + [book.file];
    }

    /** The request settles. A rejected fetch or a non-ok status throws and
        leaves the flag set; an ok response saves the file under the derived
        name and schedules the clean-up. */
    method Respond(outcome: FetchOutcome) returns (r: Result<string, DownloadError>)
      requires Valid() && pending.Some?
      modifies this
      ensures Valid() && pending.None? && Disabled() && fetched == old(fetched)
      ensures r.Success? <==> outcome.Responded? && IsOk(outcome.status)
      ensures r.Success? ==>
        && r.value == DownloadFileName(old(pending).value.title)
        && cleanupPending && saved == old(saved) + [r.value]
      ensures r.Failure? ==>
        && !cleanupPending && saved == old(saved)
        && r.error == (if outcome.Rejected? then FetchRejected else BadStatus(StatusMessage(outcome.status)))
    {
      var book := pending.value;
      pending := None;
      if outcome.Rejected? {
        return Failure(FetchRejected);
      }
      if !IsOk(outcome.status) {
        return Failure(BadStatus(StatusMessage(outcome.status)));
      }
      var name := DownloadFileName(book.title);
      saved := saved + [name];
      cleanupPending := true;
      r := Success(name);
    }

    /** The clean-up timer fires: the link goes and the flag is cleared. */
    method Cleanup()
      requires Valid() && cleanupPending
      modifies this
      ensures Valid() && !Disabled() && !cleanupPending
      ensures pending == old(pending) && fetched == old(fetched) && saved == old(saved)
    {
      cleanupPending := false;
      isDownloading := false;
    }
  }

  /** A failed download leaves the button disabled: a second click fetches nothing. */
  method FailedDownloadDisablesButton(book: Book, status: nat)
    requires !IsOk(status)
  {
    var button := new DownloadButton();
    button.Click(book);
    var r := button.Respond(Responded(status));
    assert r == Failure(BadStatus(StatusMessage(status)));
    assert button.Disabled();
    button.Click(book);
    assert button.fetched == [book.file] && button.saved == [];
  }

  /** A successful download is saved under the derived name, and the button is
      enabled again once the clean-up has run. */
  method SuccessfulDownloadReenablesButton(book: Book)
  {
    var button := new DownloadButton();
    button.Click(book);
    var r := button.Respond(Responded(200));
    assert r == Success(DownloadFileName(book.title));
    assert button.Disabled();
    button.Cleanup();
    assert !button.Disabled() && button.saved == [DownloadFileName(book.title)];
  }
}
