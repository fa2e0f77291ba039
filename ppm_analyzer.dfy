// The screenshot analyser (`analyze_screenshot.py`): loading a binary
// Netpbm P6 file byte by byte as `PPMAnalyzer.load_ppm` does it (line reads,
// ASCII decoding, `strip`, `split`, `int`), the integer pixel counts and
// bounding box of `analyze_colors`, and the order of the verdicts in
// `print_analysis`.
module PpmAnalyzer {
  import opened MachineWords

  // ---------------------------------------------------------------------------
  // Bytes and text
  // ---------------------------------------------------------------------------

  const NEWLINE: u8 := 10
  const SPACE: u8 := 32
  const HASH: u8 := 35
  const PLUS: u8 := 43
  const MINUS: u8 := 45
  const DIGIT_ZERO: u8 := 48
  const UNDERSCORE: u8 := 95
  /** The magic line's text, `P6`. */
  const MAGIC: seq<u8> := [80, 54]

  /** The ASCII characters Python's `str.strip` and `str.split` treat as whitespace. */
  predicate IsSpace(b: u8)
  {
    9 <= b <= 13 || 28 <= b <= 32
  }

  predicate IsDigit(b: u8)
  {
    48 <= b <= 57
  }

  /** `bytes.decode('ascii')` succeeds exactly when every byte is below 128. */
  predicate Ascii(s: seq<u8>)
  {
    forall i :: 0 <= i < |s| ==> s[i] < 128
  }

  predicate NoNewline(s: seq<u8>)
  {
    forall i :: 0 <= i < |s| ==> s[i] != NEWLINE
  }

  /**
   * Where `readline` from position `p` stops: just after the first newline
   * at or after `p`, or at the end of the file.
   */
  function LineEnd(file: seq<u8>, p: nat): (e: nat)
    requires p <= |file|
    ensures p <= e <= |file|
    ensures p < e <==> p < |file|
    decreases |file| - p
  {
    if p == |file| then p else if file[p] == NEWLINE then p + 1 else LineEnd(file, p + 1)
  }

  function TrimLeft(s: seq<u8>): (t: seq<u8>)
    ensures |t| <= |s|
    ensures t != [] ==> !IsSpace(t[0])
    decreases |s|
  {
    if s != [] && IsSpace(s[0]) then TrimLeft(s[1..]) else s
  }

  function TrimRight(s: seq<u8>): (t: seq<u8>)
    ensures |t| <= |s|
    ensures t != [] ==> !IsSpace(t[|t| - 1])
    decreases |s|
  {
    if s != [] && IsSpace(s[|s| - 1]) then TrimRight(s[..|s| - 1]) else s
  }

  /** `str.strip()`: the text without leading and trailing whitespace. */
  function Strip(s: seq<u8>): (t: seq<u8>)
    ensures |t| <= |s|
    ensures t != [] ==> !IsSpace(t[0]) && !IsSpace(t[|t| - 1])
  {
    var l := TrimLeft(s);
    var t := TrimRight(l);
    if t != [] then TrimRightPrefix(l); t else t
  }

  /** What `TrimRight` keeps is a prefix of its input. */
  lemma {:induction false} TrimRightPrefix(s: seq<u8>)
    ensures TrimRight(s) == s[..|TrimRight(s)|]
    decreases |s|
  {
    if s != [] && IsSpace(s[|s| - 1]) {
      TrimRightPrefix(s[..|s| - 1]);
    }
  }

  /** The length of the word at the start of `s`: its leading non-whitespace bytes. */
  function WordLength(s: seq<u8>): (n: nat)
    ensures n <= |s|
    ensures s != [] && !IsSpace(s[0]) ==> n > 0
    decreases |s|
  {
    if s == [] || IsSpace(s[0]) then 0 else 1 + WordLength(s[1..])
  }

  /** `str.split()`: the words of `s`, separated by runs of whitespace. */
  function Fields(s: seq<u8>): seq<seq<u8>>
    decreases |s|
  {
    if s == [] then []
    else if IsSpace(s[0]) then Fields(s[1..])
    else
      var n := WordLength(s);
      [s[..n]] + Fields(s[n..])
  }

  /** Python's digit groups: digits, with single underscores only between two digits. */
  predicate DigitGroups(d: seq<u8>)
  {
    |d| > 0 && IsDigit(d[0]) && IsDigit(d[|d| - 1]) &&
    forall i :: 0 <= i < |d| ==> IsDigit(d[i]) || (d[i] == UNDERSCORE && i + 1 < |d| && IsDigit(d[i + 1]))
  }

  /** The value of decimal digit groups, underscores ignored. */
  function GroupsValue(d: seq<u8>): nat
    decreases |d|
  {
    if d == [] then 0
    else if IsDigit(d[|d| - 1]) then GroupsValue(d[..|d| - 1]) * 10 + (d[|d| - 1] - DIGIT_ZERO)
    else GroupsValue(d[..|d| - 1])
  }

  /** `int(token)` for a word without whitespace: an optional sign, then digit groups. */
  function IntToken(t: seq<u8>): Option<int>
  {
    var signed := t != [] && (t[0] == PLUS || t[0] == MINUS);
    var d := if signed then t[1..] else t;
    if !DigitGroups(d) then None
    else if signed && t[0] == MINUS then Some(-(GroupsValue(d) as int))
    else Some(GroupsValue(d))
  }

  /**
   * `width, height = map(int, line.split())`: exactly two words, each an
   * integer (a third word or a bad one raises `ValueError`).
   */
  function Dimensions(line: seq<u8>): Option<(int, int)>
  {
    var f := Fields(line);
    if |f| != 2 then None
    else
      match (IntToken(f[0]), IntToken(f[1]))
      case (Some(w), Some(h)) => Some((w, h))
      case _ => None
  }

  // ---------------------------------------------------------------------------
  // Loading
  // ---------------------------------------------------------------------------

  /**
   * The exceptions `load_ppm` raises: `UnicodeDecodeError` for a header line
   * that is not ASCII, and the `ValueError`s for the magic, the dimension
   * line, the maximum value line, the payload size and the reshape to
   * negative dimensions.
   */
  datatype LoadError = NotAscii | NotP6 | BadDimensions | BadMaxValue | SizeMismatch | BadShape

  /**
   * The comment skip from the line starting at `p`: each line is read,
   * decoded and stripped, and skipped while it starts with `#`; the result
   * is the first other stripped line and the position after it, or `None`
   * when a line read on the way does not decode.
   */
  function SkipComments(file: seq<u8>, p: nat): (r: Option<(seq<u8>, nat)>)
    requires p <= |file|
    ensures r.Some? ==> p <= r.value.1 <= |file|
    decreases |file| - p
  {
    var e := LineEnd(file, p);
    if !Ascii(file[p..e]) then None
    else
      var line := Strip(file[p..e]);
      if line != [] && line[0] == HASH then SkipComments(file, e) else Some((line, e))
  }

  /**
   * What `load_ppm` does to a file: the exception it raises, if any, with
   * the fields it has assigned by then (`width` and `height` once the
   * dimension line is parsed, the flat `pixels` once the payload has the
   * right size, even when the reshape then fails).
   */
  datatype Loaded = Loaded(error: Option<LoadError>, dims: Option<(int, int)>, pixels: Option<seq<u8>>)

  function Load(file: seq<u8>): Loaded
  {
    var e1 := LineEnd(file, 0);
    if !Ascii(file[..e1]) then Loaded(Some(NotAscii), None, None)
    else if Strip(file[..e1]) != MAGIC then Loaded(Some(NotP6), None, None)
    else
      match SkipComments(file, e1)
      case None => Loaded(Some(NotAscii), None, None)
      case Some((line, p)) => LoadDimensions(file, line, p)
  }

  /** `load_ppm` from the dimension line `line`, read up to position `p`. */
  function LoadDimensions(file: seq<u8>, line: seq<u8>, p: nat): Loaded
    requires p <= |file|
  {
    match Dimensions(line)
    case None => Loaded(Some(BadDimensions), None, None)
    case Some((w, h)) => LoadPayload(file, p, w, h)
  }

  /** `load_ppm` from the maximum value line at `p`, once the dimensions `w` x `h` are set. */
  function LoadPayload(file: seq<u8>, p: nat, w: int, h: int): Loaded
    requires p <= |file|
  {
    var e := LineEnd(file, p);
    if !Ascii(file[p..e]) then Loaded(Some(NotAscii), Some((w, h)), None)
    else if IntToken(Strip(file[p..e])).None? then Loaded(Some(BadMaxValue), Some((w, h)), None)
    else if |file| - e != w * h * 3 then Loaded(Some(SizeMismatch), Some((w, h)), None)
    else if w < 0 || h < 0 then Loaded(Some(BadShape), Some((w, h)), Some(file[e..]))
    else Loaded(None, Some((w, h)), Some(file[e..]))
  }

  /**
   * A file that loads has a `P6` first line, non-negative dimensions and
   * exactly three bytes per pixel; one whose first line is not `P6` never
   * loads.
   */
  lemma LoadedShape(file: seq<u8>)
    ensures Load(file).error.None? ==>
      Load(file).dims.Some? && Load(file).pixels.Some? &&
      var (w, h) := Load(file).dims.value;
      w >= 0 && h >= 0 && |Load(file).pixels.value| == w * h * 3 &&
      Strip(file[..LineEnd(file, 0)]) == MAGIC
    ensures Ascii(file[..LineEnd(file, 0)]) && Strip(file[..LineEnd(file, 0)]) != MAGIC ==>
      Load(file).error == Some(NotP6)
  {
    var e1 := LineEnd(file, 0);
    if Ascii(file[..e1]) && Strip(file[..e1]) == MAGIC && SkipComments(file, e1).Some? {
      var (line, p) := SkipComments(file, e1).value;
      LoadAfterHeader(file, e1, line, p);
      DimensionsShape(file, line, p);
    }
  }

  /** A `P6` first line ending at `e1`, then comments up to the line `line` ending at `p`: the load goes on from there. */
  lemma LoadAfterHeader(file: seq<u8>, e1: nat, line: seq<u8>, p: nat)
    requires e1 == LineEnd(file, 0) && Ascii(file[..e1]) && Strip(file[..e1]) == MAGIC
    requires SkipComments(file, e1) == Some((line, p))
    ensures p <= |file| && Load(file) == LoadDimensions(file, line, p)
  {
  }

  /** From the dimension line on, a load without error sets non-negative dimensions and a payload of their size. */
  lemma DimensionsShape(file: seq<u8>, line: seq<u8>, p: nat)
    requires p <= |file|
    ensures var l := LoadDimensions(file, line, p);
      l.error.None? ==>
        l.dims.Some? && l.pixels.Some? && l.dims.value.0 >= 0 && l.dims.value.1 >= 0 &&
        |l.pixels.value| == l.dims.value.0 * l.dims.value.1 * 3
  {
    if Dimensions(line).Some? {
      var (w, h) := Dimensions(line).value;
      assert LoadDimensions(file, line, p) == LoadPayload(file, p, w, h);
    }
  }

  /** A loaded screenshot: the dimensions and the row-major RGB bytes. */
  class PpmImage {
    var width: int
    var height: int
    var pixels: Option<seq<u8>>

    /** The fields `__init__` sets before loading. */
    constructor ()
      ensures width == 0 && height == 0 && pixels == None
    {
      width, height, pixels := 0, 0, None;
    }

    /**
     * `load_ppm`: reads the magic line, skips comment lines in a loop,
     * parses the dimensions and the maximum value, then takes the rest of
     * the file as the payload; the outcome and every field it assigns are
     * those of `Load`, and a field it does not reach keeps its value.
     */
    method LoadPpm(file: seq<u8>) returns (error: Option<LoadError>)
      modifies this
      ensures error == Load(file).error
      ensures Load(file).dims.Some? ==> (width, height) == Load(file).dims.value
      ensures Load(file).dims.None? ==> width == old(width) && height == old(height)
      ensures pixels == if Load(file).pixels.Some? then Load(file).pixels else old(pixels)
    {
      var e1 := LineEnd(file, 0);
      if !Ascii(file[..e1]) {
        return Some(NotAscii);
      }
      if Strip(file[..e1]) != MAGIC {
        return Some(NotP6);
      }
      var start := e1;
      var e := LineEnd(file, start);
      if !Ascii(file[start..e]) {
        return Some(NotAscii);
      }
      var line := Strip(file[start..e]);
      while line != [] && line[0] == HASH
        invariant start <= |file| && e == LineEnd(file, start)
        invariant Ascii(file[start..e]) && line == Strip(file[start..e])
        invariant SkipComments(file, start) == SkipComments(file, e1)
        decreases |file| - start
      {
        start := e;
        e := LineEnd(file, start);
        if !Ascii(file[start..e]) {
          return Some(NotAscii);
        }
        line := Strip(file[start..e]);
      }
      assert SkipComments(file, e1) == Some((line, e));
      var dims := Dimensions(line);
      if dims.None? {
        return Some(BadDimensions);
      }
      width, height := dims.value.0, dims.value.1;
      var e3 := LineEnd(file, e);
      if !Ascii(file[e..e3]) {
        return Some(NotAscii);
      }
      if IntToken(Strip(file[e..e3])).None? {
        return Some(BadMaxValue);
      }
      if |file| - e3 != width * height * 3 {
        return Some(SizeMismatch);
      }
      pixels := Some(file[e3..]);
      if width < 0 || height < 0 {
        return Some(BadShape);
      }
      return None;
    }
  }

  /** `PPMAnalyzer(path)`: a fresh analyser that has loaded the file, or the exception that escaped. */
  datatype Opened = Opened(image: PpmImage) | Failed(error: LoadError)

  method Open(file: seq<u8>) returns (r: Opened)
    ensures r.Failed? <==> Load(file).error.Some?
    ensures r.Failed? ==> r.error == Load(file).error.value
    ensures r.Opened? ==>
      fresh(r.image) && Load(file).dims == Some((r.image.width, r.image.height)) && r.image.pixels == Load(file).pixels
  {
    var image := new PpmImage();
    var error := image.LoadPpm(file);
    if error.Some? {
      return Failed(error.value);
    }
    LoadedShape(file);
    return Opened(image);
  }

  // ---------------------------------------------------------------------------
  // Writing, and the round trip
  // ---------------------------------------------------------------------------

  /** The decimal digits of `n`, most significant first, without leading zeros. */
  function Decimal(n: nat): (d: seq<u8>)
    ensures |d| > 0
    ensures forall i :: 0 <= i < |d| ==> IsDigit(d[i])
    decreases n
  {
    if n < 10 then [(DIGIT_ZERO + n) as u8] else Decimal(n / 10) + [(DIGIT_ZERO + n % 10) as u8]
  }

  /** Comment lines, each followed by a newline. */
  function CommentBlock(comments: seq<seq<u8>>): seq<u8>
    decreases |comments|
  {
    if comments == [] then [] else comments[0] + [NEWLINE] + CommentBlock(comments[1..])
  }

  /** A comment line a writer may put in the header: ASCII, one line, starting with `#`. */
  predicate CommentLine(c: seq<u8>)
  {
    c != [] && c[0] == HASH && Ascii(c) && NoNewline(c)
  }

  predicate CommentLines(comments: seq<seq<u8>>)
  {
    forall i :: 0 <= i < |comments| ==> CommentLine(comments[i])
  }

  /** A header line that is not a comment: ASCII, one line, no `#` and no whitespace at its ends. */
  predicate DataLine(line: seq<u8>)
  {
    line != [] && line[0] != HASH && !IsSpace(line[0]) && !IsSpace(line[|line| - 1]) &&
    Ascii(line) && NoNewline(line)
  }

  /**
   * The file a P6 writer produces: the magic line, comment lines, the
   * dimension line, the maximum value 255, then the payload.
   */
  function Encode(width: nat, height: nat, comments: seq<seq<u8>>, pixels: seq<u8>): seq<u8>
  {
    MAGIC + [NEWLINE] + CommentBlock(comments) + Decimal(width) + [SPACE] + Decimal(height) + [NEWLINE] +
    Decimal(255) + [NEWLINE] + pixels
  }

  /**
   * Round trip: whatever the comments, a written screenshot whose payload
   * has three bytes per pixel loads without error, with the written
   * dimensions and exactly the written payload.
   */
  lemma LoadEncoded(width: nat, height: nat, comments: seq<seq<u8>>, pixels: seq<u8>)
    requires CommentLines(comments)
    requires |pixels| == width * height * 3
    ensures Load(Encode(width, height, comments, pixels)) == Loaded(None, Some((width, height)), Some(pixels))
  {
    var file := Encode(width, height, comments, pixels);
    var dimsLine := Decimal(width) + [SPACE] + Decimal(height);
    var tail := Decimal(255) + [NEWLINE] + pixels;
    assert file == MAGIC + [NEWLINE] + CommentBlock(comments) + dimsLine + [NEWLINE] + tail;
    DimensionLine(width, height);
    var e1, p := HeaderOfLayout(file, comments, dimsLine, tail);
    LoadLayout(file, e1, p, dimsLine, width, height, pixels);
  }

  /**
   * The rest of the round trip: once the header is read up to a dimension
   * line reading `width` and `height`, the maximum value line and a payload
   * of the right size complete the load.
   */
  lemma LoadLayout(file: seq<u8>, e1: nat, p: nat, dimsLine: seq<u8>, width: nat, height: nat, pixels: seq<u8>)
    requires e1 == LineEnd(file, 0) && Ascii(file[..e1]) && Strip(file[..e1]) == MAGIC
    requires SkipComments(file, e1) == Some((dimsLine, p))
    requires Dimensions(dimsLine) == Some((width as int, height as int))
    requires p <= |file| && file[p..] == Decimal(255) + [NEWLINE] + pixels && |pixels| == width * height * 3
    ensures Load(file) == Loaded(None, Some((width as int, height as int)), Some(pixels))
  {
    LoadAfterHeader(file, e1, dimsLine, p);
    assert LoadDimensions(file, dimsLine, p) == LoadPayload(file, p, width, height);
    PayloadLine(file, p, width, height, pixels);
  }

  /** The magic line and the comments of a written header are read up to the dimension line. */
  lemma HeaderOfLayout(file: seq<u8>, comments: seq<seq<u8>>, dimsLine: seq<u8>, tail: seq<u8>)
    returns (e1: nat, p: nat)
    requires CommentLines(comments) && DataLine(dimsLine)
    requires file == MAGIC + [NEWLINE] + CommentBlock(comments) + dimsLine + [NEWLINE] + tail
    ensures e1 == LineEnd(file, 0) && e1 <= |file| && Ascii(file[..e1]) && Strip(file[..e1]) == MAGIC
    ensures p <= |file| && file[p..] == tail
    ensures SkipComments(file, e1) == Some((dimsLine, p))
  {
    e1 := MagicLine(file, CommentBlock(comments) + dimsLine + [NEWLINE] + tail);
    SkipCommentBlock(file, e1, comments, dimsLine, tail);
    p := |file| - |tail|;
  }

  /** A file starting with the line `P6` passes the magic check, and reading goes on after that line. */
  lemma MagicLine(file: seq<u8>, rest: seq<u8>) returns (e1: nat)
    requires file == MAGIC + [NEWLINE] + rest
    ensures e1 == LineEnd(file, 0) && e1 <= |file| && Ascii(file[..e1]) && Strip(file[..e1]) == MAGIC
    ensures file[e1..] == rest
  {
    assert file[0..] == MAGIC + [NEWLINE] + rest;
    e1 := LineThen(file, 0, MAGIC, rest);
    assert file[..e1] == MAGIC + [NEWLINE];
    StripTrailingSpace(MAGIC, NEWLINE);
    StripUnspaced(MAGIC);
  }

  /** The written dimension line is a data line and reads back as the dimensions. */
  lemma DimensionLine(width: nat, height: nat)
    ensures var line := Decimal(width) + [SPACE] + Decimal(height);
      DataLine(line) && Dimensions(line) == Some((width as int, height as int))
  {
    var a, b := Decimal(width), Decimal(height);
    DigitsAscii(a);
    DigitsAscii(b);
    DigitsUnspaced(a);
    DigitsUnspaced(b);
    PairShape(a, b);
    FieldsOfPair(a, b);
    DecimalRoundTrip(width);
    DecimalRoundTrip(height);
  }

  /** Two digit words joined by a space form a data line. */
  lemma PairShape(a: seq<u8>, b: seq<u8>)
    requires a != [] && b != []
    requires forall i :: 0 <= i < |a| ==> IsDigit(a[i])
    requires forall i :: 0 <= i < |b| ==> IsDigit(b[i])
    ensures DataLine(a + [SPACE] + b)
  {
    var line := a + [SPACE] + b;
    assert line[0] == a[0];
    assert line[|line| - 1] == b[|b| - 1];
    assert forall i :: 0 <= i < |line| ==> line[i] == SPACE || IsDigit(line[i]);
  }

  /** The maximum value line `255` then a payload of the right size: the load completes with that payload. */
  lemma PayloadLine(file: seq<u8>, p: nat, width: nat, height: nat, pixels: seq<u8>)
    requires p <= |file| && file[p..] == Decimal(255) + [NEWLINE] + pixels
    requires |pixels| == width * height * 3
    ensures LoadPayload(file, p, width, height) == Loaded(None, Some((width as int, height as int)), Some(pixels))
  {
    DigitsAscii(Decimal(255));
    DigitsUnspaced(Decimal(255));
    var e := LineThen(file, p, Decimal(255), pixels);
    AsciiLine(Decimal(255));
    StripTrailingSpace(Decimal(255), NEWLINE);
    StripUnspaced(Decimal(255));
    DecimalRoundTrip(255);
    assert IntToken(Strip(file[p..e])).Some?;
  }

  /** `readline` at `p` returns exactly a line `line` that is followed by a newline. */
  lemma {:induction false} LineAt(file: seq<u8>, p: nat, line: seq<u8>)
    requires p + |line| < |file| && file[p..p + |line|] == line && file[p + |line|] == NEWLINE
    requires NoNewline(line)
    ensures LineEnd(file, p) == p + |line| + 1
    ensures file[p..LineEnd(file, p)] == line + [NEWLINE]
    decreases |line|
  {
    if line != [] {
      assert file[p] == line[0];
      assert file[p + 1..p + 1 + |line[1..]|] == line[1..];
      LineAt(file, p + 1, line[1..]);
    }
  }

  /** Stripping ignores a trailing whitespace byte such as the newline. */
  lemma StripTrailingSpace(s: seq<u8>, c: u8)
    requires IsSpace(c)
    ensures Strip(s + [c]) == Strip(s)
  {
    TrimLeftAppend(s, c);
    if TrimLeft(s) != [] {
      assert (TrimLeft(s) + [c])[..|TrimLeft(s) + [c]| - 1] == TrimLeft(s);
    }
  }

  /** Trimming the left of `s + [c]` for a whitespace `c`. */
  lemma {:induction false} TrimLeftAppend(s: seq<u8>, c: u8)
    requires IsSpace(c)
    ensures TrimLeft(s + [c]) == if TrimLeft(s) == [] then [] else TrimLeft(s) + [c]
    decreases |s|
  {
    if s == [] {
      assert TrimLeft([c]) == TrimLeft([c][1..]);
    } else if IsSpace(s[0]) {
      assert (s + [c])[1..] == s[1..] + [c];
      TrimLeftAppend(s[1..], c);
    }
  }

  /** A text that neither starts nor ends with whitespace is its own strip. */
  lemma StripUnspaced(s: seq<u8>)
    requires s != [] && !IsSpace(s[0]) && !IsSpace(s[|s| - 1])
    ensures Strip(s) == s
  {
  }

  lemma DigitsAscii(d: seq<u8>)
    requires forall i :: 0 <= i < |d| ==> IsDigit(d[i])
    ensures Ascii(d) && NoNewline(d)
  {
  }

  lemma DigitsUnspaced(d: seq<u8>)
    requires forall i :: 0 <= i < |d| ==> IsDigit(d[i])
    ensures forall i :: 0 <= i < |d| ==> !IsSpace(d[i])
  {
  }

  /**
   * The comment skip passes over each comment line and stops at the first
   * other line, stripped.
   */
  lemma {:induction false} SkipCommentBlock(file: seq<u8>, p: nat, comments: seq<seq<u8>>, line: seq<u8>,
                                            rest: seq<u8>)
    requires CommentLines(comments) && DataLine(line)
    requires p <= |file| && file[p..] == CommentBlock(comments) + line + [NEWLINE] + rest
    ensures SkipComments(file, p) == Some((line, |file| - |rest|))
    decreases |comments|
  {
    if comments == [] {
      assert file[p..] == line + [NEWLINE] + rest;
      var e := LineThen(file, p, line, rest);
      AsciiLine(line);
      StripTrailingSpace(line, NEWLINE);
      StripUnspaced(line);
      SkipCommentsStep(file, p, e, line);
    } else {
      var c := comments[0];
      var tail := CommentBlock(comments[1..]) + line + [NEWLINE] + rest;
      assert CommentLine(c);
      assert file[p..] == c + [NEWLINE] + tail;
      var e := LineThen(file, p, c, tail);
      AsciiLine(c);
      StripTrailingSpace(c, NEWLINE);
      StripKeepsFirst(c);
      SkipCommentsStep(file, p, e, Strip(c));
      assert CommentLines(comments[1..]) by {
        assert forall i :: 0 <= i < |comments[1..]| ==> comments[1..][i] == comments[i + 1];
      }
      SkipCommentBlock(file, e, comments[1..], line, rest);
    }
  }

  /** The line `line` at `p` followed by a newline and `tail`: where `readline` stops, and what follows. */
  lemma LineThen(file: seq<u8>, p: nat, line: seq<u8>, tail: seq<u8>) returns (e: nat)
    requires NoNewline(line)
    requires p <= |file| && file[p..] == line + [NEWLINE] + tail
    ensures e == p + |line| + 1 && e <= |file|
    ensures LineEnd(file, p) == e && file[p..e] == line + [NEWLINE] && file[e..] == tail
  {
    assert file[p..p + |line|] == line && file[p + |line|] == NEWLINE;
    LineAt(file, p, line);
    e := p + |line| + 1;
    assert file[e..] == file[p..][|line| + 1..];
  }

  /** One step of the comment skip, from the line between `p` and `e`, stripped to `stripped`. */
  lemma SkipCommentsStep(file: seq<u8>, p: nat, e: nat, stripped: seq<u8>)
    requires p <= e <= |file| && LineEnd(file, p) == e
    requires Ascii(file[p..e]) && Strip(file[p..e]) == stripped
    ensures stripped != [] && stripped[0] == HASH ==> SkipComments(file, p) == SkipComments(file, e)
    ensures !(stripped != [] && stripped[0] == HASH) ==> SkipComments(file, p) == Some((stripped, e))
  {
  }

  /** An ASCII line with its newline is still ASCII. */
  lemma AsciiLine(s: seq<u8>)
    requires Ascii(s)
    ensures Ascii(s + [NEWLINE])
  {
  }

  /** Stripping a text that starts with a non-whitespace byte keeps that byte first. */
  lemma StripKeepsFirst(s: seq<u8>)
    requires s != [] && !IsSpace(s[0])
    ensures Strip(s) != [] && Strip(s)[0] == s[0]
  {
    TrimRightKeepsFirst(s);
  }

  lemma {:induction false} TrimRightKeepsFirst(s: seq<u8>)
    requires s != [] && !IsSpace(s[0])
    ensures TrimRight(s) != [] && TrimRight(s)[0] == s[0]
    decreases |s|
  {
    if IsSpace(s[|s| - 1]) {
      TrimRightKeepsFirst(s[..|s| - 1]);
    }
  }

  /** Two words separated by one space split into exactly those words. */
  lemma FieldsOfPair(a: seq<u8>, b: seq<u8>)
    requires a != [] && b != []
    requires forall i :: 0 <= i < |a| ==> !IsSpace(a[i])
    requires forall i :: 0 <= i < |b| ==> !IsSpace(b[i])
    ensures Fields(a + [SPACE] + b) == [a, b]
  {
    var s := a + [SPACE] + b;
    assert s == a + ([SPACE] + b);
    WordPrefix(a, [SPACE] + b);
    assert s[|a|..] == [SPACE] + b;
    assert Fields(s) == [a] + Fields([SPACE] + b);
    assert ([SPACE] + b)[1..] == b;
    assert Fields([SPACE] + b) == Fields(b);
    WordPrefix(b, []);
    assert b + [] == b && b[|b|..] == [];
    assert Fields(b) == [b] + Fields([]);
  }

  /** The word at the start of `w + rest` is `w` when `w` has no whitespace and `rest` starts with some. */
  lemma {:induction false} WordPrefix(w: seq<u8>, rest: seq<u8>)
    requires forall i :: 0 <= i < |w| ==> !IsSpace(w[i])
    requires rest == [] || IsSpace(rest[0])
    ensures WordLength(w + rest) == |w|
    ensures (w + rest)[..|w|] == w
    decreases |w|
  {
    if w != [] {
      assert (w + rest)[1..] == w[1..] + rest;
      WordPrefix(w[1..], rest);
    }
  }

  /** `int` reads back the decimal digits of a natural number. */
  lemma {:induction false} DecimalRoundTrip(n: nat)
    ensures IntToken(Decimal(n)) == Some(n as int)
    decreases n
  {
    var d := Decimal(n);
    assert DigitGroups(d);
    DecimalValue(n);
  }

  lemma {:induction false} DecimalValue(n: nat)
    ensures GroupsValue(Decimal(n)) == n
    decreases n
  {
    var d := Decimal(n);
    if n < 10 {
      assert d[..0] == [];
    } else {
      DecimalValue(n / 10);
      assert d[..|d| - 1] == Decimal(n / 10);
    }
  }

  // ---------------------------------------------------------------------------
  // The integer parts of `analyze_colors`
  // ---------------------------------------------------------------------------

  /** Pixel `i` in row-major order is black when its three bytes are 0. */
  predicate Black(pixels: seq<u8>, i: nat)
    requires 3 * i + 3 <= |pixels|
  {
    pixels[3 * i] == 0 && pixels[3 * i + 1] == 0 && pixels[3 * i + 2] == 0
  }

  /**
   * The pixel at column `x` and row `y` of an image `width` pixels wide is
   * in the payload and black.
   */
  predicate BlackAt(pixels: seq<u8>, width: nat, x: nat, y: nat)
  {
    3 * (y * width + x) + 3 <= |pixels| && Black(pixels, y * width + x)
  }

  /** How many of the first `n` pixels are not black. */
  function ColoredCount(pixels: seq<u8>, n: nat): nat
    requires 3 * n <= |pixels|
  {
    if n == 0 then 0 else ColoredCount(pixels, n - 1) + if Black(pixels, n - 1) then 0 else 1
  }

  /** How many of the first `n` pixels are black. */
  function BlackCount(pixels: seq<u8>, n: nat): nat
    requires 3 * n <= |pixels|
  {
    if n == 0 then 0 else BlackCount(pixels, n - 1) + if Black(pixels, n - 1) then 1 else 0
  }

  /** The `bounding_box` of the non-black pixels, inclusive. */
  datatype Box = Box(minX: int, maxX: int, minY: int, maxY: int)
  {
    function Width(): int { maxX - minX + 1 }
    function Height(): int { maxY - minY + 1 }
  }

  function Extend(b: Option<Box>, x: int, y: int): Box
  {
    match b
    case None => Box(x, x, y, y)
    case Some(b) =>
      Box(if x < b.minX then x else b.minX, if x > b.maxX then x else b.maxX,
          if y < b.minY then y else b.minY, if y > b.maxY then y else b.maxY)
  }

  /** The box of the non-black pixels among the first `n`, at column `i % width` and row `i / width`. */
  function BoxOf(pixels: seq<u8>, width: nat, n: nat): Option<Box>
    requires 3 * n <= |pixels| && (n > 0 ==> width > 0)
  {
    if n == 0 then None
    else
      var b := BoxOf(pixels, width, n - 1);
      if Black(pixels, n - 1) then b else Some(Extend(b, (n - 1) % width, (n - 1) / width))
  }

  /** The integer entries of `analyze_colors`' result. */
  datatype ColorCounts = ColorCounts(total: int, black: int, colored: int, box: Option<Box>)

  /**
   * `analyze_colors` on a `width` x `height` image: the total, black and
   * coloured pixel counts, and the bounding box only when some pixel is
   * coloured.
   */
  function AnalyzeColors(width: nat, height: nat, pixels: seq<u8>): ColorCounts
    requires |pixels| == width * height * 3
  {
    var n := width * height;
    var colored := ColoredCount(pixels, n);
    ColorCounts(n, n - colored, colored, if colored > 0 then BoxOf(pixels, width, n) else None)
  }

  /** The black and the coloured pixels partition the image. */
  lemma {:induction false} CountsPartition(pixels: seq<u8>, n: nat)
    requires 3 * n <= |pixels|
    ensures BlackCount(pixels, n) + ColoredCount(pixels, n) == n
  {
    if n > 0 {
      CountsPartition(pixels, n - 1);
    }
  }

  /** No pixel among the first `n` is coloured exactly when all of them are black. */
  lemma {:induction false} NoColoredAllBlack(pixels: seq<u8>, n: nat)
    requires 3 * n <= |pixels|
    ensures ColoredCount(pixels, n) == 0 <==> forall i :: 0 <= i < n ==> Black(pixels, i)
  {
    if n > 0 {
      NoColoredAllBlack(pixels, n - 1);
    }
  }

  /** Every coloured pixel among the first `n` lies inside `b`. */
  predicate Covers(pixels: seq<u8>, width: nat, n: nat, b: Box)
    requires 3 * n <= |pixels| && (n > 0 ==> width > 0)
  {
    forall i :: 0 <= i < n && !Black(pixels, i) ==>
      b.minX <= i % width <= b.maxX && b.minY <= i / width <= b.maxY
  }

  /** Each of the four edges of `b` passes through a coloured pixel among the first `n`. */
  predicate Touches(pixels: seq<u8>, width: nat, n: nat, b: Box)
    requires 3 * n <= |pixels| && (n > 0 ==> width > 0)
  {
    (exists i :: 0 <= i < n && !Black(pixels, i) && i % width == b.minX) &&
    (exists i :: 0 <= i < n && !Black(pixels, i) && i % width == b.maxX) &&
    (exists i :: 0 <= i < n && !Black(pixels, i) && i / width == b.minY) &&
    (exists i :: 0 <= i < n && !Black(pixels, i) && i / width == b.maxY)
  }

  /**
   * The box over the first `n` pixels exists exactly when one of them is
   * coloured, holds every coloured one, and touches a coloured one on each
   * of its four edges.
   */
  lemma {:induction false} BoxOfTight(pixels: seq<u8>, width: nat, n: nat)
    requires 3 * n <= |pixels| && (n > 0 ==> width > 0)
    ensures BoxOf(pixels, width, n).Some? <==> ColoredCount(pixels, n) > 0
    ensures BoxOf(pixels, width, n).Some? ==>
      var b := BoxOf(pixels, width, n).value;
      (forall i :: 0 <= i < n && !Black(pixels, i) ==>
         b.minX <= i % width <= b.maxX && b.minY <= i / width <= b.maxY) &&
      (exists i :: 0 <= i < n && !Black(pixels, i) && i % width == b.minX) &&
      (exists i :: 0 <= i < n && !Black(pixels, i) && i % width == b.maxX) &&
      (exists i :: 0 <= i < n && !Black(pixels, i) && i / width == b.minY) &&
      (exists i :: 0 <= i < n && !Black(pixels, i) && i / width == b.maxY)
  {
    TightBox(pixels, width, n);
    if BoxOf(pixels, width, n).Some? {
      var b := BoxOf(pixels, width, n).value;
      assert Covers(pixels, width, n, b) && Touches(pixels, width, n, b);
    }
  }

  /** `BoxOfTight` stated through `Covers` and `Touches`, by induction on `n`. */
  lemma {:induction false} TightBox(pixels: seq<u8>, width: nat, n: nat)
    requires 3 * n <= |pixels| && (n > 0 ==> width > 0)
    ensures BoxOf(pixels, width, n).Some? <==> ColoredCount(pixels, n) > 0
    ensures BoxOf(pixels, width, n).Some? ==>
      Covers(pixels, width, n, BoxOf(pixels, width, n).value) &&
      Touches(pixels, width, n, BoxOf(pixels, width, n).value)
  {
    if n > 0 {
      TightBox(pixels, width, n - 1);
      if Black(pixels, n - 1) {
        BlackKeepsBox(pixels, width, n);
      } else {
        ColoredExtendsBox(pixels, width, n);
      }
    }
  }

  /** A black pixel leaves the box of the pixels before it tight. */
  lemma BlackKeepsBox(pixels: seq<u8>, width: nat, n: nat)
    requires 3 * n <= |pixels| && n > 0 && width > 0 && Black(pixels, n - 1)
    requires BoxOf(pixels, width, n - 1).Some? ==>
      Covers(pixels, width, n - 1, BoxOf(pixels, width, n - 1).value) &&
      Touches(pixels, width, n - 1, BoxOf(pixels, width, n - 1).value)
    ensures BoxOf(pixels, width, n).Some? ==>
      Covers(pixels, width, n, BoxOf(pixels, width, n).value) &&
      Touches(pixels, width, n, BoxOf(pixels, width, n).value)
  {
    var m := n - 1;
    if BoxOf(pixels, width, m).Some? {
      var b := BoxOf(pixels, width, m).value;
      var i1 :| 0 <= i1 < m && !Black(pixels, i1) && i1 % width == b.minX;
      var i2 :| 0 <= i2 < m && !Black(pixels, i2) && i2 % width == b.maxX;
      var i3 :| 0 <= i3 < m && !Black(pixels, i3) && i3 / width == b.minY;
      var i4 :| 0 <= i4 < m && !Black(pixels, i4) && i4 / width == b.maxY;
      assert 0 <= i1 < n && 0 <= i2 < n && 0 <= i3 < n && 0 <= i4 < n;
    }
  }

  /** A coloured pixel grows the box of the pixels before it to a tight box. */
  lemma ColoredExtendsBox(pixels: seq<u8>, width: nat, n: nat)
    requires 3 * n <= |pixels| && n > 0 && width > 0 && !Black(pixels, n - 1)
    requires BoxOf(pixels, width, n - 1).Some? <==> ColoredCount(pixels, n - 1) > 0
    requires BoxOf(pixels, width, n - 1).Some? ==>
      Covers(pixels, width, n - 1, BoxOf(pixels, width, n - 1).value) &&
      Touches(pixels, width, n - 1, BoxOf(pixels, width, n - 1).value)
    ensures BoxOf(pixels, width, n).Some?
    ensures Covers(pixels, width, n, BoxOf(pixels, width, n).value)
    ensures Touches(pixels, width, n, BoxOf(pixels, width, n).value)
  {
    var m := n - 1;
    var before := BoxOf(pixels, width, m);
    var x, y := m % width, m / width;
    var b := Extend(before, x, y);
    assert BoxOf(pixels, width, n) == Some(b);
    if before.None? {
      NoColoredAllBlack(pixels, m);
      assert m % width == b.minX && m % width == b.maxX;
      assert m / width == b.minY && m / width == b.maxY;
    } else {
      var c := before.value;
      var i1 :| 0 <= i1 < m && !Black(pixels, i1) && i1 % width == c.minX;
      var i2 :| 0 <= i2 < m && !Black(pixels, i2) && i2 % width == c.maxX;
      var i3 :| 0 <= i3 < m && !Black(pixels, i3) && i3 / width == c.minY;
      var i4 :| 0 <= i4 < m && !Black(pixels, i4) && i4 / width == c.maxY;
      var w1 := if x < c.minX then m else i1;
      var w2 := if x > c.maxX then m else i2;
      var w3 := if y < c.minY then m else i3;
      var w4 := if y > c.maxY then m else i4;
      assert 0 <= w1 < n && !Black(pixels, w1) && w1 % width == b.minX;
      assert 0 <= w2 < n && !Black(pixels, w2) && w2 % width == b.maxX;
      assert 0 <= w3 < n && !Black(pixels, w3) && w3 / width == b.minY;
      assert 0 <= w4 < n && !Black(pixels, w4) && w4 / width == b.maxY;
    }
  }

  /** Column `x` and row `y` are where row-major pixel `y * width + x` lies. */
  lemma RowMajor(width: nat, x: nat, y: nat)
    requires x < width
    ensures (y * width + x) % width == x && (y * width + x) / width == y
  {
    var i := y * width + x;
    var q, r := i / width, i % width;
    assert q * width + r == y * width + x;
    if q > y {
      assert (q - y) * width >= width by { MulAtLeast(q - y, width); }
    } else if q < y {
      assert (y - q) * width >= width by { MulAtLeast(y - q, width); }
    }
  }

  lemma MulAtLeast(k: int, w: nat)
    requires k >= 1
    ensures k * w >= w
  {
  }

  /** Pixel `y * width + x` of a `width` x `height` image is inside its payload. */
  lemma InImage(width: nat, height: nat, x: nat, y: nat)
    requires x < width && y < height
    ensures 3 * (y * width + x) + 3 <= width * height * 3
  {
    assert y * width + x < (y + 1) * width;
    assert (y + 1) * width <= height * width by { MulMonotone(y + 1, height, width); }
  }

  lemma MulMonotone(a: nat, b: nat, w: nat)
    requires a <= b
    ensures a * w <= b * w
  {
  }

  /**
   * `black_pixels + colored_pixels == total_pixels == width * height`, and
   * `black_pixels` is the number of black pixels.
   */
  lemma ColorCountsAddUp(width: nat, height: nat, pixels: seq<u8>)
    requires |pixels| == width * height * 3
    ensures var a := AnalyzeColors(width, height, pixels);
      a.total == width * height && a.black + a.colored == a.total && a.black == BlackCount(pixels, width * height)
  {
    CountsPartition(pixels, width * height);
  }

  /**
   * The bounding box exists exactly when some pixel is coloured; then every
   * coloured pixel lies inside it, each of its edges touches a coloured
   * pixel, and its width and height are at least 1 and at most the image's.
   */
  lemma BoundingBoxTight(width: nat, height: nat, pixels: seq<u8>)
    requires |pixels| == width * height * 3
    ensures AnalyzeColors(width, height, pixels).box.Some? <==> AnalyzeColors(width, height, pixels).colored > 0
    ensures AnalyzeColors(width, height, pixels).box.Some? ==>
      var b := AnalyzeColors(width, height, pixels).box.value;
      (forall x: nat, y: nat | x < width && y < height && !BlackAt(pixels, width, x, y) ::
         b.minX <= x <= b.maxX && b.minY <= y <= b.maxY) &&
      (exists i :: 0 <= i < width * height && !Black(pixels, i) && i % width == b.minX) &&
      (exists i :: 0 <= i < width * height && !Black(pixels, i) && i % width == b.maxX) &&
      (exists i :: 0 <= i < width * height && !Black(pixels, i) && i / width == b.minY) &&
      (exists i :: 0 <= i < width * height && !Black(pixels, i) && i / width == b.maxY) &&
      1 <= b.Width() <= width && 1 <= b.Height() <= height
  {
    var n := width * height;
    if n > 0 {
      BoxOfTight(pixels, width, n);
      if ColoredCount(pixels, n) > 0 {
        BoxHoldsColored(width, height, pixels);
        BoxInsideImage(width, height, pixels);
      }
    } else {
      assert BoxOf(pixels, width, 0) == None;
    }
  }

  /** Every coloured pixel, by column and row, lies in the box of the whole image. */
  lemma BoxHoldsColored(width: nat, height: nat, pixels: seq<u8>)
    requires |pixels| == width * height * 3 && width * height > 0
    requires BoxOf(pixels, width, width * height).Some?
    ensures var b := BoxOf(pixels, width, width * height).value;
      forall x: nat, y: nat | x < width && y < height && !BlackAt(pixels, width, x, y) ::
        b.minX <= x <= b.maxX && b.minY <= y <= b.maxY
  {
    var n := width * height;
    BoxOfTight(pixels, width, n);
    var b := BoxOf(pixels, width, n).value;
    forall x: nat, y: nat | x < width && y < height && !BlackAt(pixels, width, x, y)
      ensures b.minX <= x <= b.maxX && b.minY <= y <= b.maxY
    {
      ColoredPixelInBox(pixels, width, height, b, x, y);
    }
  }

  /** A coloured pixel at column `x` and row `y` lies in any box holding the coloured pixels by index. */
  lemma ColoredPixelInBox(pixels: seq<u8>, width: nat, height: nat, b: Box, x: nat, y: nat)
    requires |pixels| == width * height * 3 && x < width && y < height && !BlackAt(pixels, width, x, y)
    requires forall i :: 0 <= i < width * height && !Black(pixels, i) ==>
      b.minX <= i % width <= b.maxX && b.minY <= i / width <= b.maxY
    ensures b.minX <= x <= b.maxX && b.minY <= y <= b.maxY
  {
    var i := y * width + x;
    InImage(width, height, x, y);
    RowMajor(width, x, y);
    assert 0 <= i < width * height && !Black(pixels, i);
  }

  /** The box of the whole image is at least one pixel and at most the image in each direction. */
  lemma BoxInsideImage(width: nat, height: nat, pixels: seq<u8>)
    requires |pixels| == width * height * 3 && width * height > 0
    requires BoxOf(pixels, width, width * height).Some?
    ensures var b := BoxOf(pixels, width, width * height).value;
      1 <= b.Width() <= width && 1 <= b.Height() <= height
  {
    var n := width * height;
    BoxOfTight(pixels, width, n);
    var b := BoxOf(pixels, width, n).value;
    var iMin :| 0 <= iMin < n && !Black(pixels, iMin) && iMin % width == b.minX;
    var iMax :| 0 <= iMax < n && !Black(pixels, iMax) && iMax % width == b.maxX;
    var jMin :| 0 <= jMin < n && !Black(pixels, jMin) && jMin / width == b.minY;
    var jMax :| 0 <= jMax < n && !Black(pixels, jMax) && jMax / width == b.maxY;
    BelowRows(width, height, jMax);
    assert b.minX <= iMin % width <= b.maxX && b.minY <= jMin / width <= b.maxY;
    assert 0 <= b.minX && b.maxX < width;
    DivNonNegative(jMin, width);
  }

  lemma DivNonNegative(i: nat, w: nat)
    requires w > 0
    ensures i / w >= 0
  {
  }

  /** A pixel index inside the image lies in one of its rows. */
  lemma BelowRows(width: nat, height: nat, i: nat)
    requires i < width * height
    ensures width > 0 && i / width < height
  {
    if i / width >= height {
      assert (i / width) * width >= height * width by { MulMonotone(height, i / width, width); }
    }
  }

  // ---------------------------------------------------------------------------
  // The diagnostic in `print_analysis`
  // ---------------------------------------------------------------------------

  datatype Verdict = CompletelyBlack | SparseRendering | HorizontalStretching | FewEdges | ReasonableRendering

  /**
   * The first matching diagnostic, in `print_analysis`' order. `stretched`
   * (an aspect ratio above 2) and `totalEdges` come from the floating-point
   * shape analysis; the fill test `colored / total * 100 < 1` is taken in
   * exact arithmetic.
   */
  function Diagnose(a: ColorCounts, stretched: bool, totalEdges: int): Verdict
  {
    if a.colored == 0 then CompletelyBlack
    else if a.colored * 100 < a.total then SparseRendering
    else if stretched then HorizontalStretching
    else if totalEdges < 10 then FewEdges
    else ReasonableRendering
  }

  /**
   * The "completely black" verdict is given exactly when every pixel is
   * black, whatever the shape analysis found; any other verdict comes with
   * a bounding box and a fill of at least one percent unless it is the
   * sparse one.
   */
  lemma BlackVerdictExactly(width: nat, height: nat, pixels: seq<u8>, stretched: bool, totalEdges: int)
    requires |pixels| == width * height * 3
    ensures Diagnose(AnalyzeColors(width, height, pixels), stretched, totalEdges) == CompletelyBlack <==>
      forall x: nat, y: nat | x < width && y < height :: BlackAt(pixels, width, x, y)
    ensures Diagnose(AnalyzeColors(width, height, pixels), stretched, totalEdges) != CompletelyBlack ==>
      AnalyzeColors(width, height, pixels).box.Some?
    ensures Diagnose(AnalyzeColors(width, height, pixels), stretched, totalEdges) in
              {HorizontalStretching, FewEdges, ReasonableRendering} ==>
      AnalyzeColors(width, height, pixels).colored * 100 >= width * height
  {
    AllBlackAtExactly(width, height, pixels);
    BoundingBoxTight(width, height, pixels);
  }

  /** No pixel is coloured exactly when the pixel at every column and row is black. */
  lemma AllBlackAtExactly(width: nat, height: nat, pixels: seq<u8>)
    requires |pixels| == width * height * 3
    ensures ColoredCount(pixels, width * height) == 0 <==>
      forall x: nat, y: nat | x < width && y < height :: BlackAt(pixels, width, x, y)
  {
    var n := width * height;
    NoColoredAllBlack(pixels, n);
    if forall x: nat, y: nat | x < width && y < height :: BlackAt(pixels, width, x, y) {
      forall i | 0 <= i < n
        ensures Black(pixels, i)
      {
        BlackByIndex(width, height, pixels, i);
      }
    } else {
      var x: nat, y: nat :| x < width && y < height && !BlackAt(pixels, width, x, y);
      InImage(width, height, x, y);
      assert !Black(pixels, y * width + x);
    }
  }

  /** Pixel `i` is the one at column `i % width` and row `i / width`. */
  lemma BlackByIndex(width: nat, height: nat, pixels: seq<u8>, i: nat)
    requires |pixels| == width * height * 3 && i < width * height
    requires forall x: nat, y: nat | x < width && y < height :: BlackAt(pixels, width, x, y)
    ensures Black(pixels, i)
  {
    BelowRows(width, height, i);
    var x, y := i % width, i / width;
    InImage(width, height, x, y);
    assert i == y * width + x;
    assert BlackAt(pixels, width, x, y);
  }
}
