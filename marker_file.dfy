/** The pause-marker file: StepToolsMarkerSave.execute collects the frames of the
    markers named "P" and writes them (step_tools.py:464-473); StepToolsPause.get_markers
    reads them back (step_tools.py:504-510). The file is modelled by its text. */
module MarkerFile {
  import opened Timeline

  // ---------------------------------------------------------------- collecting

  /** The frames of the markers named "P". */
  function PauseFrames(markers: seq<Marker>): (r: set<int>)
    ensures forall m :: m in markers && m.name == "P" ==> m.frame in r
    ensures |r| <= |markers|
  {
    if markers == [] then {}
    else
      var m := markers[|markers| - 1];
      PauseFrames(markers[..|markers| - 1]) + (if m.name == "P" then {m.frame} else {})
  }

  /** A frame is a pause frame exactly when some marker named "P" sits on it. */
  lemma {:induction false} PauseFramesMembers(markers: seq<Marker>, x: int)
    ensures x in PauseFrames(markers)
        <==> exists i :: 0 <= i < |markers| && markers[i].name == "P" && markers[i].frame == x
  {
    if markers != [] {
      var init := markers[..|markers| - 1];
      PauseFramesMembers(init, x);
      if exists i :: 0 <= i < |markers| && markers[i].name == "P" && markers[i].frame == x {
        var i :| 0 <= i < |markers| && markers[i].name == "P" && markers[i].frame == x;
        if i < |init| {
          assert init[i] == markers[i];
        }
      }
      if exists i :: 0 <= i < |init| && init[i].name == "P" && init[i].frame == x {
        var i :| 0 <= i < |init| && init[i].name == "P" && init[i].frame == x;
        assert markers[i] == init[i];
      }
    }
  }

  predicate Ascending(s: seq<int>)
  {
    forall i, j :: 0 <= i < j < |s| ==> s[i] <= s[j]
  }

  predicate StrictlyAscending(s: seq<int>)
  {
    forall i, j :: 0 <= i < j < |s| ==> s[i] < s[j]
  }

  /** No value occurs twice. */
  ghost predicate NoDuplicates(s: seq<int>)
  {
    forall x :: multiset(s)[x] <= 1
  }

  /** `x` put into its place in an ascending sequence. */
  function Insert(x: int, s: seq<int>): (r: seq<int>)
    requires Ascending(s)
    ensures Ascending(r) && multiset(r) == multiset(s) + multiset{x}
    ensures |r| == |s| + 1 && r[0] == if s == [] || x <= s[0] then x else s[0]
  {
    if s == [] || x <= s[0] then [x] + s
    else
      var tail := Insert(x, s[1..]);
      assert s == [s[0]] + s[1..];
      assert tail[0] >= s[0];
      [s[0]] + tail
  }

  /** Python's `sorted` on integers. */
  function SortAscending(s: seq<int>): (r: seq<int>)
    ensures Ascending(r) && multiset(r) == multiset(s)
  {
    if s == [] then []
    else
      assert s == [s[0]] + s[1..];
      Insert(s[0], SortAscending(s[1..]))
  }

  /** Two equal entries at different places count twice in the multiset. */
  lemma TwiceCounted(s: seq<int>, i: nat, j: nat)
    requires i < j < |s|
    ensures s[i] == s[j] ==> multiset(s)[s[i]] >= 2
  {
    assert s == s[..j] + s[j..];
    assert s[i] == s[..j][i];
    assert s[j] == s[j..][0];
  }

  lemma AscendingWithoutDuplicates(s: seq<int>)
    requires Ascending(s) && NoDuplicates(s)
    ensures StrictlyAscending(s)
  {
    forall i, j | 0 <= i < j < |s|
      ensures s[i] < s[j]
    {
      TwiceCounted(s, i, j);
    }
  }

  /** The marker collection of StepToolsMarkerSave.execute: every frame of a
      marker named "P", each once, in ascending order. */
  method CollectPauseFrames(markers: seq<Marker>) returns (frames: seq<int>)
    ensures StrictlyAscending(frames)
    ensures forall x :: x in frames <==> x in PauseFrames(markers)
  {
    frames := [];
    for i := 0 to |markers|
      invariant NoDuplicates(frames)
      invariant forall x :: x in frames <==> x in PauseFrames(markers[..i])
    {
      assert markers[..i + 1][..i] == markers[..i];
      if markers[i].name == "P" && markers[i].frame !in frames {
        frames := frames + [markers[i].frame];
      }
    }
    assert markers[..|markers|] == markers;
    var unsorted := frames;
    frames := SortAscending(frames);
    assert forall x :: x in frames <==> x in multiset(unsorted);
    AscendingWithoutDuplicates(frames);
  }

  // ---------------------------------------------------------------- writing

  function DigitChar(d: nat): char
    requires d < 10
  {
    ('0' as int + d) as char
  }

  /** Decimal digits of a natural number, most significant first, no leading zeros. */
  function NatDecimal(n: nat): (r: string)
    ensures |r| > 0 && forall i :: 0 <= i < |r| ==> IsDigit(r[i])
  {
    if n < 10 then [DigitChar(n)] else NatDecimal(n / 10) + [DigitChar(n % 10)]
  }

  /** Python's `f"{x}"` for an integer: a minus sign before a negative number. */
  function IntDecimal(x: int): (r: string)
    ensures |r| > 0 && (r[0] == '-' <==> x < 0)
    ensures forall i :: 0 <= i < |r| ==> IsDigit(r[i]) || (i == 0 && r[i] == '-')
  {
    if x < 0 then "-" + NatDecimal(-x) else NatDecimal(x)
  }

  /** What the writer emits for one frame: its decimal text and one space. */
  function Token(x: int): string
  {
    IntDecimal(x) + " "
  }

  /** The file text: each frame in decimal followed by exactly one space. */
  function Serialize(frames: seq<int>): (r: string)
    ensures |r| >= 2 * |frames|
    ensures forall i :: 0 <= i < |r| ==> IsDigit(r[i]) || r[i] == '-' || r[i] == ' '
  {
    if frames == [] then "" else Token(frames[0]) + Serialize(frames[1..])
  }

  lemma {:induction false} SerializeSnoc(frames: seq<int>, x: int)
    ensures Serialize(frames + [x]) == Serialize(frames) + Token(x)
  {
    if frames == [] {
      assert [x][1..] == [];
    } else {
      var head, rest := Token(frames[0]), Serialize(frames[1..]);
      assert (frames + [x])[0] == frames[0];
      assert (frames + [x])[1..] == frames[1..] + [x];
      SerializeSnoc(frames[1..], x);
      assert Serialize(frames + [x]) == head + (rest + Token(x));
    }
  }

  /** The writing loop of StepToolsMarkerSave.execute, with the file as its text. */
  method WriteMarkers(frames: seq<int>) returns (text: string)
    ensures text == Serialize(frames)
  {
    text := "";
    for i := 0 to |frames|
      invariant text == Serialize(frames[..i])
    {
      assert frames[..i + 1] == frames[..i] + [frames[i]];
      SerializeSnoc(frames[..i], frames[i]);
      text := text + Token(frames[i]);
    }
    assert frames[..|frames|] == frames;
  }

  // ---------------------------------------------------------------- reading

  /** The characters Python's `str.split()` separates on. */
  predicate IsSpace(c: char)
    ensures IsLineBreak(c) ==> IsSpace(c)
    ensures IsSpace(c) ==> !IsDigit(c) && c != '-'
  {
    var n := c as int;
    n == 0x20 || 0x09 <= n <= 0x0D || 0x1C <= n <= 0x1F || n == 0x85 || n == 0xA0 || n == 0x1680
    || 0x2000 <= n <= 0x200A || n == 0x2028 || n == 0x2029 || n == 0x202F || n == 0x205F || n == 0x3000
  }

  /** A line ends at '\n' or, read in text mode, at '\r'. */
  predicate IsLineBreak(c: char)
  {
    c == '\n' || c == '\r'
  }

  predicate IsDigit(c: char)
  {
    '0' <= c <= '9'
  }

  /** `str.isdigit()`: at least one character, and all of them digits. */
  predicate IsDigits(s: string)
    ensures IsDigits(s) ==> forall i :: 0 <= i < |s| ==> s[i] != '-' && !IsSpace(s[i])
  {
    |s| > 0 && forall i :: 0 <= i < |s| ==> IsDigit(s[i])
  }

  /** `int(s)` for a string of digits. */
  function DigitsValue(s: string): (r: nat)
    requires forall i :: 0 <= i < |s| ==> IsDigit(s[i])
    ensures r == 0 <==> forall i :: 0 <= i < |s| ==> s[i] == '0'
  {
    if s == [] then 0
    else
      assert IsDigit(s[|s| - 1]);
      DigitsValue(s[..|s| - 1]) * 10 + (s[|s| - 1] as int - '0' as int)
  }

  /** `readline()`: the text up to the first line break. */
  function FirstLine(text: string): (r: string)
    ensures |r| <= |text| && r == text[..|r|]
    ensures forall i :: 0 <= i < |r| ==> !IsLineBreak(r[i])
    ensures |r| < |text| ==> IsLineBreak(text[|r|])
  {
    if text == [] || IsLineBreak(text[0]) then [] else [text[0]] + FirstLine(text[1..])
  }

  /** The longest prefix of `s` without whitespace. */
  function Word(s: string): (w: string)
    ensures |w| <= |s| && w == s[..|w|]
    ensures s != [] && !IsSpace(s[0]) ==> |w| > 0
    ensures forall i :: 0 <= i < |w| ==> !IsSpace(w[i])
    ensures |w| < |s| ==> IsSpace(s[|w|])
  {
    if s == [] || IsSpace(s[0]) then [] else [s[0]] + Word(s[1..])
  }

  /** `str.split()` with no separator: the maximal runs of non-whitespace, in order. */
  function Words(s: string): (r: seq<string>)
    ensures forall k :: 0 <= k < |r| ==> |r[k]| > 0 && forall i :: 0 <= i < |r[k]| ==> !IsSpace(r[k][i])
    decreases |s|
  {
    if s == [] then []
    else if IsSpace(s[0]) then Words(s[1..])
    else
      var w := Word(s);
      [w] + Words(s[|w|..])
  }

  /** The loop of get_markers: keep the tokens that are all digits, as numbers. */
  function DigitTokens(tokens: seq<string>): (r: seq<nat>)
    ensures |r| <= |tokens|
  {
    if tokens == [] then []
    else
      var t := tokens[|tokens| - 1];
      DigitTokens(tokens[..|tokens| - 1]) + (if IsDigits(t) then [DigitsValue(t)] else [])
  }

  /** What get_markers returns for the file text. */
  function ParseMarkers(text: string): (r: seq<nat>)
    ensures |r| <= |Words(FirstLine(text))|
  {
    DigitTokens(Words(FirstLine(text)))
  }

  /** StepToolsPause.get_markers, with the file as its text. */
  method GetMarkers(text: string) returns (markers: seq<nat>)
    ensures markers == ParseMarkers(text)
  {
    markers := [];
    var tokens := Words(FirstLine(text));
    for j := 0 to |tokens|
      invariant markers == DigitTokens(tokens[..j])
    {
      assert tokens[..j + 1][..j] == tokens[..j];
      if IsDigits(tokens[j]) {
        markers := markers + [DigitsValue(tokens[j])];
      }
    }
    assert tokens[..|tokens|] == tokens;
  }

  // ---------------------------------------------------------------- round trip

  /** The decimal text of a natural number is all digits and `int` reads it back. */
  lemma {:induction false} NatDecimalRoundTrip(n: nat)
    ensures IsDigits(NatDecimal(n)) && DigitsValue(NatDecimal(n)) == n
  {
    var s := NatDecimal(n);
    if n >= 10 {
      NatDecimalRoundTrip(n / 10);
      assert s[..|s| - 1] == NatDecimal(n / 10);
    }
  }

  /** `f"{x}"` passes `isdigit()` exactly when x is not negative, and then `int` reads x back. */
  lemma IntDecimalRoundTrip(x: int)
    ensures |IntDecimal(x)| > 0
    ensures forall i :: 0 <= i < |IntDecimal(x)| ==> IsDigit(IntDecimal(x)[i]) || IntDecimal(x)[i] == '-'
    ensures IsDigits(IntDecimal(x)) <==> x >= 0
    ensures x >= 0 ==> DigitsValue(IntDecimal(x)) == x
  {
    if x < 0 {
      NatDecimalRoundTrip(-x);
      assert IntDecimal(x)[0] == '-';
    } else {
      NatDecimalRoundTrip(x);
    }
  }

  lemma {:induction false} WordBeforeSpace(w: string, rest: string)
    requires forall i :: 0 <= i < |w| ==> !IsSpace(w[i])
    ensures Word(w + " " + rest) == w
  {
    if w != [] {
      assert (w + " " + rest)[1..] == w[1..] + " " + rest;
      WordBeforeSpace(w[1..], rest);
    }
  }

  lemma WordsAfterWord(w: string, rest: string)
    requires |w| > 0 && forall i :: 0 <= i < |w| ==> !IsSpace(w[i])
    ensures Words(w + " " + rest) == [w] + Words(rest)
  {
    WordBeforeSpace(w, rest);
    assert (w + " " + rest)[|w|..] == " " + rest;
    assert (" " + rest)[1..] == rest;
  }

  /** The decimal texts of the frames, in order. */
  function Decimals(frames: seq<int>): seq<string>
  {
    seq(|frames|, i requires 0 <= i < |frames| => IntDecimal(frames[i]))
  }

  /** The frames that are not negative, in order. */
  function NonNegatives(frames: seq<int>): seq<nat>
  {
    if frames == [] then []
    else
      var x := frames[|frames| - 1];
      NonNegatives(frames[..|frames| - 1]) + (if x >= 0 then [x] else [])
  }

  lemma {:induction false} WordsOfSerialize(frames: seq<int>)
    ensures Words(Serialize(frames)) == Decimals(frames)
  {
    if frames != [] {
      var w := IntDecimal(frames[0]);
      IntDecimalRoundTrip(frames[0]);
      WordsAfterWord(w, Serialize(frames[1..]));
      WordsOfSerialize(frames[1..]);
      assert Decimals(frames) == [w] + Decimals(frames[1..]);
    }
  }

  lemma {:induction false} FirstLineAppend(line: string, rest: string)
    requires forall i :: 0 <= i < |line| ==> !IsLineBreak(line[i])
    ensures FirstLine(line + rest) == line + FirstLine(rest)
  {
    if line != [] {
      var text := line + rest;
      assert text[0] == line[0] && !IsLineBreak(text[0]);
      assert text[1..] == line[1..] + rest;
      FirstLineAppend(line[1..], rest);
      calc {
        FirstLine(text);
        [text[0]] + FirstLine(text[1..]);
        [line[0]] + (line[1..] + FirstLine(rest));
        { assert line == [line[0]] + line[1..]; }
        line + FirstLine(rest);
      }
    } else {
      assert line + rest == rest;
    }
  }

  lemma {:induction false} SerializeIsOneLine(frames: seq<int>)
    ensures FirstLine(Serialize(frames)) == Serialize(frames)
  {
    if frames != [] {
      var w := IntDecimal(frames[0]);
      IntDecimalRoundTrip(frames[0]);
      SerializeIsOneLine(frames[1..]);
      FirstLineAppend(w + " ", Serialize(frames[1..]));
    }
  }

  lemma {:induction false} DigitTokensOfDecimals(frames: seq<int>)
    ensures DigitTokens(Decimals(frames)) == NonNegatives(frames)
  {
    if frames != [] {
      var n := |frames| - 1;
      assert Decimals(frames)[..n] == Decimals(frames[..n]);
      DigitTokensOfDecimals(frames[..n]);
      IntDecimalRoundTrip(frames[n]);
    }
  }

  /** Reading the written text gives back the frames in order, less the negative
      ones, whose minus sign fails `isdigit()`. */
  lemma RoundTrip(frames: seq<int>)
    ensures ParseMarkers(Serialize(frames)) == NonNegatives(frames)
  {
    SerializeIsOneLine(frames);
    WordsOfSerialize(frames);
    DigitTokensOfDecimals(frames);
  }

  lemma {:induction false} NonNegativesOfNatural(frames: seq<int>)
    requires forall i :: 0 <= i < |frames| ==> frames[i] >= 0
    ensures NonNegatives(frames) == frames
  {
    if frames != [] {
      NonNegativesOfNatural(frames[..|frames| - 1]);
    }
  }

  /** Reading the written text gives exactly the saved frames when, and only
      when, no frame is negative. */
  lemma RoundTripExact(frames: seq<int>)
    ensures ParseMarkers(Serialize(frames)) == frames <==> forall i :: 0 <= i < |frames| ==> frames[i] >= 0
  {
    RoundTrip(frames);
    if forall i :: 0 <= i < |frames| ==> frames[i] >= 0 {
      NonNegativesOfNatural(frames);
    }
  }

  /** NonNegatives keeps exactly the frames that are not negative. */
  lemma {:induction false} NonNegativesMembers(frames: seq<int>, x: int)
    ensures x in NonNegatives(frames) <==> x in frames && x >= 0
  {
    if frames != [] {
      var init := frames[..|frames| - 1];
      NonNegativesMembers(init, x);
      assert frames == init + [frames[|frames| - 1]];
    }
  }

  /** A value larger than every element may be appended to a strictly ascending sequence. */
  lemma AppendLarger(s: seq<int>, x: int)
    requires StrictlyAscending(s)
    requires forall i :: 0 <= i < |s| ==> s[i] < x
    ensures StrictlyAscending(s + [x])
  {
    var r := s + [x];
    forall i, j | 0 <= i < j < |r|
      ensures r[i] < r[j]
    {
      if j < |s| {
        assert r[i] == s[i] && r[j] == s[j];
      }
    }
  }

  /** A bound on every frame bounds every frame NonNegatives keeps. */
  lemma NonNegativesBelow(frames: seq<int>, x: int)
    requires forall i :: 0 <= i < |frames| ==> frames[i] < x
    ensures forall i :: 0 <= i < |NonNegatives(frames)| ==> NonNegatives(frames)[i] < x
  {
    var kept := NonNegatives(frames);
    forall i | 0 <= i < |kept|
      ensures kept[i] < x
    {
      NonNegativesMembers(frames, kept[i]);
    }
  }

  /** Dropping the negative frames keeps strictly ascending frames strictly ascending. */
  lemma {:induction false} NonNegativesAscending(frames: seq<int>)
    requires StrictlyAscending(frames)
    ensures StrictlyAscending(NonNegatives(frames))
  {
    if frames != [] {
      var n := |frames| - 1;
      var init, last := frames[..n], frames[n];
      NonNegativesAscending(init);
      var kept := NonNegatives(init);
      if last >= 0 {
        NonNegativesBelow(init, last);
        AppendLarger(kept, last);
        assert NonNegatives(frames) == kept + [last];
      } else {
        assert NonNegatives(frames) == kept;
      }
    }
  }

  /** StepToolsMarkerSave followed by get_markers on the file it wrote: the frames
      of the markers named "P" that are not negative, each once, in ascending order. */
  method SaveAndRead(markers: seq<Marker>) returns (read: seq<nat>)
    ensures StrictlyAscending(read)
    ensures forall x :: x in read <==> x in PauseFrames(markers) && x >= 0
  {
    var frames := CollectPauseFrames(markers);
    var text := WriteMarkers(frames);
    read := GetMarkers(text);
    RoundTrip(frames);
    NonNegativesAscending(frames);
    forall x
      ensures x in read <==> x in PauseFrames(markers) && x >= 0
    {
      NonNegativesMembers(frames, x);
    }
  }

  /** A marker at frame -12 is written as "-12 " and silently dropped on reading. */
  lemma NegativeFrameDropped()
    ensures Serialize([-12, 5]) == "-12 5 "
    ensures ParseMarkers(Serialize([-12, 5])) == [5]
  {
    ExampleText();
    RoundTrip([-12, 5]);
    ExampleNonNegatives();
  }

  lemma ExampleText()
    ensures Serialize([-12, 5]) == "-12 5 "
  {
    assert NatDecimal(12) == NatDecimal(1) + [DigitChar(2)];
    assert Token(-12) == "-12 " && Token(5) == "5 ";
    assert Serialize([5]) == Token(5) + Serialize([]);
    assert Serialize([-12, 5]) == Token(-12) + Serialize([5]);
  }

  lemma ExampleNonNegatives()
    ensures NonNegatives([-12, 5]) == [5]
  {
    assert [-12, 5][..1] == [-12];
    assert NonNegatives([-12]) == NonNegatives([]) + [];
  }

  /** Only the first line counts: whatever follows the first line break is ignored. */
  lemma OnlyFirstLine(line: string, brk: char, rest: string)
    requires forall i :: 0 <= i < |line| ==> !IsLineBreak(line[i])
    requires IsLineBreak(brk)
    ensures ParseMarkers(line + [brk] + rest) == ParseMarkers(line)
  {
    FirstLineAppend(line, [brk] + rest);
    FirstLineAppend(line, []);
    assert line + [brk] + rest == line + ([brk] + rest);
    assert line + [] == line;
  }
}
