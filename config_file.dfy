/**
 * The line parsing of the MongoDB walk controller's loadConfig: for each line
 * of config.ini, the first key the line contains (tested as substrings, in the
 * order api_url, robot_id, poll_interval) selects a setting, and the text after
 * the line's first '=' becomes its value: trimmed of spaces and tabs at both
 * ends for the two strings, trimmed at the front and read with std::stoi for
 * the poll interval.  A line without '=' changes nothing.
 *
 * Reading the file and splitting it into lines are not part of this model:
 * the lines are a parameter.
 */
module ConfigFile {
  import opened Basics

  datatype Config = Config(apiUrl: string, robotId: string, pollInterval: int)

  /** The URL loadConfig starts from. */
  const DEFAULT_API_URL: string := "http://localhost:3000/api"
  /** The identifier and interval the constructor sets before loadConfig runs. */
  const DEFAULT_ROBOT_ID: string := "robot_001"
  const DEFAULT_POLL_INTERVAL: int := 500

  // ---------------------------------------------------------------------------
  // Searching a line

  /** std::string::find of one character: the first index holding c. */
  function IndexOf(s: string, c: char): (r: Option<nat>)
    ensures r.None? <==> c !in s
    ensures r.Some? ==> r.value < |s| && s[r.value] == c && c !in s[..r.value]
  {
    if s == [] then None
    else if s[0] == c then Some(0)
    else match IndexOf(s[1..], c)
      case None => None
      case Some(i) =>
        assert s[..i + 1] == [s[0]] + s[1..][..i];
        Some(i + 1)
  }

  /** The first occurrence is the only index before which c does not occur. */
  lemma IndexOfIsFirst(s: string, c: char, p: nat)
    requires p < |s| && s[p] == c && c !in s[..p]
    ensures IndexOf(s, c) == Some(p)
  {
  }

  /** std::string::find of a key != npos: the key occurs somewhere in s. */
  predicate Contains(s: string, key: string)
    decreases |s|
  {
    key <= s || (s != [] && Contains(s[1..], key))
  }

  /** A key found at any position makes Contains true ... */
  lemma {:induction false} ContainsAt(s: string, key: string, i: nat)
    requires i + |key| <= |s| && s[i..i + |key|] == key
    ensures Contains(s, key)
    decreases i
  {
    if i == 0 {
      assert key <= s;
    } else {
      assert s[1..][i - 1..i - 1 + |key|] == s[i..i + |key|];
      ContainsAt(s[1..], key, i - 1);
    }
  }

  /** ... and Contains is true only if the key occurs at some position. */
  lemma {:induction false} ContainsHasPosition(s: string, key: string) returns (i: nat)
    requires Contains(s, key)
    ensures i + |key| <= |s| && s[i..i + |key|] == key
    decreases |s|
  {
    if key <= s {
      i := 0;
    } else {
      var j := ContainsHasPosition(s[1..], key);
      assert s[1..][j..j + |key|] == s[j + 1..j + 1 + |key|];
      i := j + 1;
    }
  }

  // ---------------------------------------------------------------------------
  // Trimming spaces and tabs

  /** The characters loadConfig trims: " \t". */
  predicate IsBlank(c: char)
  {
    c == ' ' || c == '\t'
  }

  /** erase(0, find_first_not_of(" \t")): drops the leading blanks. */
  function TrimLeft(s: string): (r: string)
    ensures |r| <= |s| && r == s[|s| - |r|..]
    ensures forall i :: 0 <= i < |s| - |r| ==> IsBlank(s[i])
    ensures r == [] || !IsBlank(r[0])
  {
    if s != [] && IsBlank(s[0]) then TrimLeft(s[1..]) else s
  }

  /** erase(find_last_not_of(" \t") + 1): drops the trailing blanks. */
  function TrimRight(s: string): (r: string)
    ensures |r| <= |s| && r == s[..|r|]
    ensures forall i :: |r| <= i < |s| ==> IsBlank(s[i])
    ensures r == [] || !IsBlank(r[|r| - 1])
  {
    if s != [] && IsBlank(s[|s| - 1]) then TrimRight(s[..|s| - 1]) else s
  }

  /** Both erasures, front first. */
  function Trim(s: string): (r: string)
    ensures |r| <= |s|
    ensures r == [] || (!IsBlank(r[0]) && !IsBlank(r[|r| - 1]))
    ensures r == [] <==> forall i :: 0 <= i < |s| ==> IsBlank(s[i])
  {
    var left := TrimLeft(s);
    var r := TrimRight(left);
    assert r != [] ==> r[0] == left[0];
    assert (forall i :: 0 <= i < |s| ==> IsBlank(s[i])) ==> left == [] by {
      if left != [] {
        assert left[0] == s[|s| - |left|];
      }
    }
    r
  }

  /** Blanks around a core whose ends are not blank: TrimLeft recovers the rest. */
  lemma {:induction false} TrimLeftOfPadded(pre: string, rest: string)
    requires forall i :: 0 <= i < |pre| ==> IsBlank(pre[i])
    requires rest == [] || !IsBlank(rest[0])
    ensures TrimLeft(pre + rest) == rest
  {
    if pre != [] {
      assert (pre + rest)[1..] == pre[1..] + rest;
      TrimLeftOfPadded(pre[1..], rest);
    }
  }

  lemma {:induction false} TrimRightOfPadded(rest: string, post: string)
    requires forall i :: 0 <= i < |post| ==> IsBlank(post[i])
    requires rest == [] || !IsBlank(rest[|rest| - 1])
    ensures TrimRight(rest + post) == rest
  {
    if post != [] {
      assert (rest + post)[..|rest + post| - 1] == rest + post[..|post| - 1];
      TrimRightOfPadded(rest, post[..|post| - 1]);
    }
  }

  /**
   * Trim removes exactly the blank padding: a core with non-blank ends,
   * padded by blanks on either side, trims back to the core.
   */
  lemma TrimOfPadded(pre: string, core: string, post: string)
    requires forall i :: 0 <= i < |pre| ==> IsBlank(pre[i])
    requires forall i :: 0 <= i < |post| ==> IsBlank(post[i])
    requires core == [] || (!IsBlank(core[0]) && !IsBlank(core[|core| - 1]))
    ensures Trim(pre + core + post) == core
  {
    if core == [] {
      assert forall i :: 0 <= i < |pre + core + post| ==> IsBlank((pre + core + post)[i]);
    } else {
      assert pre + core + post == pre + (core + post);
      TrimLeftOfPadded(pre, core + post);
      TrimRightOfPadded(core, post);
    }
  }

  /** A string whose ends are not blank trims to itself. */
  lemma TrimOfTrimmed(t: string)
    requires t == [] || (!IsBlank(t[0]) && !IsBlank(t[|t| - 1]))
    ensures Trim(t) == t
  {
    assert [] + t == t;
    TrimLeftOfPadded([], t);
    assert t + [] == t;
    TrimRightOfPadded(t, []);
  }

  /** Trimming twice is trimming once. */
  lemma TrimIsIdempotent(s: string)
    ensures Trim(Trim(s)) == Trim(s)
  {
    TrimOfTrimmed(Trim(s));
  }

  // ---------------------------------------------------------------------------
  // std::stoi

  /** Why std::stoi throws: nothing to convert, or outside the range of int. */
  datatype StoiError = InvalidArgument | OutOfRange

  const INT_MIN: int := -0x8000_0000
  const INT_MAX: int := 0x7FFF_FFFF

  /** isspace in the "C" locale. */
  predicate IsSpace(c: char)
  {
    c == ' ' || c == '\t' || c == '\n' || c == '\r' || c == '\U{0B}' || c == '\U{0C}'
  }

  predicate IsDigit(c: char)
  {
    '0' <= c <= '9'
  }

  predicate AllDigits(s: string)
  {
    forall i :: 0 <= i < |s| ==> IsDigit(s[i])
  }

  /** The white space std::stoi skips before the number. */
  function SkipSpaces(s: string): string
  {
    if s != [] && IsSpace(s[0]) then SkipSpaces(s[1..]) else s
  }

  /** SkipSpaces drops a run of white space from the front, and all of it. */
  lemma {:induction false} SkipSpacesDropsSpaces(s: string)
    ensures |SkipSpaces(s)| <= |s| && SkipSpaces(s) == s[|s| - |SkipSpaces(s)|..]
    ensures forall i :: 0 <= i < |s| - |SkipSpaces(s)| ==> IsSpace(s[i])
    ensures SkipSpaces(s) == [] || !IsSpace(SkipSpaces(s)[0])
  {
    if s != [] && IsSpace(s[0]) {
      var tail := s[1..];
      SkipSpacesDropsSpaces(tail);
      var r := SkipSpaces(tail);
      assert SkipSpaces(s) == r;
      assert tail[|tail| - |r|..] == s[|s| - |r|..];
      forall i | 0 <= i < |s| - |r|
        ensures IsSpace(s[i])
      {
        if i > 0 {
          assert s[i] == tail[i - 1];
        }
      }
    }
  }

  /** The longest prefix of s made of decimal digits. */
  function DigitPrefix(s: string): (r: string)
    ensures r <= s && AllDigits(r)
    ensures |r| < |s| ==> !IsDigit(s[|r|])
  {
    if s != [] && IsDigit(s[0]) then [s[0]] + DigitPrefix(s[1..]) else []
  }

  /** The value of a digit string, read left to right as strtol does. */
  function DigitsValue(ds: string): nat
    requires AllDigits(ds)
  {
    if ds == [] then 0
    else DigitsValue(ds[..|ds| - 1]) * 10 + (ds[|ds| - 1] as int - '0' as int)
  }

  /**
   * std::stoi(s) in base 10: leading white space, an optional sign, then the
   * longest run of digits; no digits throws invalid_argument, a value outside
   * int throws out_of_range.
   */
  function Stoi(s: string): (r: Result<int, StoiError>)
    ensures r.Success? ==> INT_MIN <= r.value <= INT_MAX
  {
    ParseSigned(SkipSpaces(s))
  }

  /** The value std::stoi returns for the number n it read, or out_of_range when n is outside int. */
  function IntOrOutOfRange(n: int): (r: Result<int, StoiError>)
    ensures r.Success? <==> INT_MIN <= n <= INT_MAX
    ensures r.Success? ==> r.value == n
    ensures r.Failure? ==> r.error == OutOfRange
  {
    if n < INT_MIN || INT_MAX < n then Failure(OutOfRange) else Success(n)
  }

  /** What std::stoi does with the text after the leading white space. */
  function ParseSigned(t: string): (r: Result<int, StoiError>)
    ensures r.Success? ==> INT_MIN <= r.value <= INT_MAX
  {
    var signed := t != [] && (t[0] == '-' || t[0] == '+');
    var negative := t != [] && t[0] == '-';
    var digits := DigitPrefix(if signed then t[1..] else t);
    if digits == [] then Failure(InvalidArgument)
    else
      var magnitude := DigitsValue(digits);
      IntOrOutOfRange(if negative then -(magnitude as int) else magnitude)
  }

  /** The decimal digits of n, most significant first (the partner of Stoi). */
  function DecimalString(n: nat): (s: string)
    ensures s != [] && AllDigits(s)
  {
    var last := ['0' + (n % 10) as char];
    if n < 10 then last else DecimalString(n / 10) + last
  }

  lemma {:induction false} DigitsValueOfDecimal(n: nat)
    ensures DigitsValue(DecimalString(n)) == n
  {
    var s := DecimalString(n);
    if n >= 10 {
      assert s[..|s| - 1] == DecimalString(n / 10);
      DigitsValueOfDecimal(n / 10);
    }
  }

  lemma {:induction false} DigitPrefixOfDigits(ds: string, rest: string)
    requires AllDigits(ds)
    requires rest == [] || !IsDigit(rest[0])
    ensures DigitPrefix(ds + rest) == ds
  {
    if ds != [] {
      assert (ds + rest)[1..] == ds[1..] + rest;
      DigitPrefixOfDigits(ds[1..], rest);
    }
  }

  /** stoi reads back any non-negative int written in decimal, ignoring what follows the digits. */
  lemma StoiReadsDecimal(n: nat, rest: string)
    requires n <= INT_MAX
    requires rest == [] || !IsDigit(rest[0])
    ensures Stoi(DecimalString(n) + rest) == Success(n)
  {
    var ds := DecimalString(n);
    var s := ds + rest;
    DigitsValueOfDecimal(n);
    assert s[0] == ds[0] && IsDigit(s[0]);
    assert SkipSpaces(s) == s;
    ParseUnsignedOfParts(ds, rest);
  }

  /** ... and any negative int written as '-' followed by its magnitude. */
  lemma StoiReadsNegativeDecimal(n: nat, rest: string)
    requires 0 < n <= -INT_MIN
    requires rest == [] || !IsDigit(rest[0])
    ensures Stoi("-" + DecimalString(n) + rest) == Success(-(n as int))
  {
    var ds := DecimalString(n);
    var s := ['-'] + ds + rest;
    assert "-" + ds + rest == s;
    DigitsValueOfDecimal(n);
    assert s[0] == '-';
    assert SkipSpaces(s) == s;
    ParseSignOfParts('-', ds, rest);
  }

  predicate IsSign(c: char)
  {
    c == '+' || c == '-'
  }

  /** White space in front of text that does not start with white space is skipped exactly. */
  lemma {:induction false} SkipSpacesOfPadded(pre: string, tail: string)
    requires forall i :: 0 <= i < |pre| ==> IsSpace(pre[i])
    requires tail == [] || !IsSpace(tail[0])
    ensures SkipSpaces(pre + tail) == tail
  {
    if pre != [] {
      assert (pre + tail)[0] == pre[0];
      assert (pre + tail)[1..] == pre[1..] + tail;
      SkipSpacesOfPadded(pre[1..], tail);
    }
  }

  /** The digit rule of std::stoi, on text with no sign in front. */
  lemma {:induction false} ParseUnsignedOfParts(digits: string, rest: string)
    requires AllDigits(digits)
    requires rest == [] || !IsDigit(rest[0])
    requires digits == [] && rest != [] ==> !IsSign(rest[0])
    ensures digits == [] ==> ParseSigned(digits + rest) == Failure(InvalidArgument)
    ensures digits != [] ==> ParseSigned(digits + rest) == IntOrOutOfRange(DigitsValue(digits))
  {
    var t := digits + rest;
    DigitPrefixOfDigits(digits, rest);
    assert DigitPrefix(t) == digits;
    if digits != [] {
      assert t[0] == digits[0] && IsDigit(t[0]);
    } else if t != [] {
      assert t[0] == rest[0] && !IsSign(t[0]);
    }
  }

  /** The sign rule of std::stoi, on text that starts with '+' or '-'. */
  lemma {:induction false} ParseSignOfParts(c: char, digits: string, rest: string)
    requires IsSign(c)
    requires AllDigits(digits)
    requires rest == [] || !IsDigit(rest[0])
    ensures digits == [] ==> ParseSigned([c] + digits + rest) == Failure(InvalidArgument)
    ensures digits != [] ==>
              var m := DigitsValue(digits) as int;
              ParseSigned([c] + digits + rest) == IntOrOutOfRange(if c == '-' then -m else m)
  {
    var t := [c] + digits + rest;
    DigitPrefixOfDigits(digits, rest);
    assert t[0] == c;
    assert t[1..] == digits + rest;
    assert DigitPrefix(t[1..]) == digits;
  }

  /** The sign and digit rules of std::stoi, on text that is a sign, digits and what follows them. */
  lemma ParseSignedOfParts(sign: string, digits: string, rest: string)
    requires sign == [] || (|sign| == 1 && IsSign(sign[0]))
    requires AllDigits(digits)
    requires rest == [] || !IsDigit(rest[0])
    requires sign == [] && digits == [] && rest != [] ==> !IsSign(rest[0])
    ensures digits == [] <==> ParseSigned(sign + digits + rest) == Failure(InvalidArgument)
    ensures digits != [] ==>
              var m := DigitsValue(digits) as int;
              ParseSigned(sign + digits + rest) == IntOrOutOfRange(if sign != [] && sign[0] == '-' then -m else m)
  {
    var t := sign + digits + rest;
    if sign == [] {
      assert t == digits + rest;
      ParseUnsignedOfParts(digits, rest);
    } else {
      var c := sign[0];
      assert t == [c] + digits + rest;
      ParseSignOfParts(c, digits, rest);
    }
  }

  /**
   * std::stoi on a string given by its parts: leading white space, an
   * optional sign, the run of digits, and what follows them.  No digits
   * throws invalid_argument; a signed value outside int throws out_of_range;
   * otherwise the result is the signed value.
   */
  lemma StoiOfParts(pre: string, sign: string, digits: string, rest: string)
    requires forall i :: 0 <= i < |pre| ==> IsSpace(pre[i])
    requires sign == [] || (|sign| == 1 && IsSign(sign[0]))
    requires AllDigits(digits)
    requires rest == [] || !IsDigit(rest[0])
    requires sign + digits + rest == [] || !IsSpace((sign + digits + rest)[0])
    requires sign == [] && digits == [] && rest != [] ==> !IsSign(rest[0])
    ensures digits == [] <==> Stoi(pre + sign + digits + rest) == Failure(InvalidArgument)
    ensures digits != [] ==>
              var m := DigitsValue(digits) as int;
              Stoi(pre + sign + digits + rest) == IntOrOutOfRange(if sign != [] && sign[0] == '-' then -m else m)
  {
    var tail := sign + digits + rest;
    assert pre + sign + digits + rest == pre + tail;
    SkipSpacesOfPadded(pre, tail);
    assert Stoi(pre + tail) == ParseSigned(tail);
    ParseSignedOfParts(sign, digits, rest);
  }

  /** Every string is a run of white space followed by text that does not start with white space. */
  lemma SpacesSplit(s: string) returns (pre: string, t: string)
    ensures s == pre + t
    ensures forall i :: 0 <= i < |pre| ==> IsSpace(pre[i])
    ensures t == [] || !IsSpace(t[0])
  {
    t := SkipSpaces(s);
    SkipSpacesDropsSpaces(s);
    pre := s[..|s| - |t|];
  }

  /** Every string is a run of digits followed by text that does not start with a digit. */
  lemma DigitsSplit(s: string) returns (digits: string, rest: string)
    ensures s == digits + rest
    ensures AllDigits(digits)
    ensures rest == [] || !IsDigit(rest[0])
  {
    digits := DigitPrefix(s);
    rest := s[|digits|..];
  }

  /**
   * Every string splits into the parts StoiOfParts takes, so StoiOfParts
   * decides std::stoi on every input.
   */
  lemma StoiSplit(s: string) returns (pre: string, sign: string, digits: string, rest: string)
    ensures s == pre + sign + digits + rest
    ensures forall i :: 0 <= i < |pre| ==> IsSpace(pre[i])
    ensures sign == [] || (|sign| == 1 && IsSign(sign[0]))
    ensures AllDigits(digits)
    ensures rest == [] || !IsDigit(rest[0])
    ensures sign + digits + rest == [] || !IsSpace((sign + digits + rest)[0])
    ensures sign == [] && digits == [] && rest != [] ==> !IsSign(rest[0])
  {
    var t;
    pre, t := SpacesSplit(s);
    var body: string;
    if t != [] && IsSign(t[0]) {
      sign := [t[0]];
      body := t[1..];
    } else {
      sign := [];
      body := t;
    }
    assert t == sign + body;
    digits, rest := DigitsSplit(body);
    assert sign + digits + rest == t;
  }

  // ---------------------------------------------------------------------------
  // Lines

  /** substr(find("=") + 1), or nothing when the line has no '='. */
  function ValueAfterEquals(line: string): Option<string>
  {
    match IndexOf(line, '=')
    case None => None
    case Some(p) => Some(line[p + 1..])
  }

  /** The effect of one line on the settings; only std::stoi can fail. */
  function ApplyLine(cfg: Config, line: string): Result<Config, StoiError>
  {
    if Contains(line, "api_url") then
      match ValueAfterEquals(line)
      case None => Success(cfg)
      case Some(v) => Success(cfg.(apiUrl := Trim(v)))
    else if Contains(line, "robot_id") then
      match ValueAfterEquals(line)
      case None => Success(cfg)
      case Some(v) => Success(cfg.(robotId := Trim(v)))
    else if Contains(line, "poll_interval") then
      match ValueAfterEquals(line)
      case None => Success(cfg)
      case Some(v) =>
        match Stoi(TrimLeft(v))
        case Success(n) => Success(cfg.(pollInterval := n))
        case Failure(e) => Failure(e)
    else Success(cfg)
  }

  /** The settings after a run of lines, and the stoi error that stopped it, if any. */
  datatype LoadOutcome = LoadOutcome(config: Config, error: Option<StoiError>)

  function LoadLines(cfg: Config, lines: seq<string>): LoadOutcome
    decreases lines
  {
    if lines == [] then LoadOutcome(cfg, None)
    else match ApplyLine(cfg, lines[0])
      case Failure(e) => LoadOutcome(cfg, Some(e))
      case Success(next) => LoadLines(next, lines[1..])
  }

  /** Loading lines is one line's effect followed by the load of the rest. */
  lemma LoadLinesFirst(cfg: Config, lines: seq<string>)
    requires lines != []
    ensures ApplyLine(cfg, lines[0]).Failure? ==>
              LoadLines(cfg, lines) == LoadOutcome(cfg, Some(ApplyLine(cfg, lines[0]).error))
    ensures ApplyLine(cfg, lines[0]).Success? ==>
              LoadLines(cfg, lines) == LoadLines(ApplyLine(cfg, lines[0]).value, lines[1..])
  {
  }

  /** Continues a load with more lines, unless it already stopped on an error. */
  function Continue(o: LoadOutcome, lines: seq<string>): LoadOutcome
  {
    if o.error.Some? then o else LoadLines(o.config, lines)
  }

  predicate MentionsNoKey(line: string)
  {
    !Contains(line, "api_url") && !Contains(line, "robot_id") && !Contains(line, "poll_interval")
  }

  /**
   * A line with none of the keys, or with no '=', leaves the settings as they
   * were; a line mentioning api_url only ever sets apiUrl, and a line
   * mentioning robot_id (but not api_url) only ever sets robotId.
   */
  lemma ApplyLineRules(cfg: Config, line: string)
    ensures MentionsNoKey(line) ==> ApplyLine(cfg, line) == Success(cfg)
    ensures '=' !in line ==> ApplyLine(cfg, line) == Success(cfg)
    ensures Contains(line, "api_url") ==>
              ApplyLine(cfg, line).Success? && ApplyLine(cfg, line).value.(apiUrl := cfg.apiUrl) == cfg
    ensures !Contains(line, "api_url") && Contains(line, "robot_id") ==>
              ApplyLine(cfg, line).Success? && ApplyLine(cfg, line).value.(robotId := cfg.robotId) == cfg
  {
  }

  /** A recognised line with '=' at p (its first '=') sets the trimmed value after it. */
  lemma ApplyLineValue(cfg: Config, line: string, p: nat)
    requires p < |line| && line[p] == '=' && '=' !in line[..p]
    ensures Contains(line, "api_url") ==>
              ApplyLine(cfg, line) == Success(cfg.(apiUrl := Trim(line[p + 1..])))
    ensures !Contains(line, "api_url") && Contains(line, "robot_id") ==>
              ApplyLine(cfg, line) == Success(cfg.(robotId := Trim(line[p + 1..])))
    ensures !Contains(line, "api_url") && !Contains(line, "robot_id") && Contains(line, "poll_interval") ==>
              ApplyLine(cfg, line) ==
                match Stoi(TrimLeft(line[p + 1..]))
                case Success(n) => Success(cfg.(pollInterval := n))
                case Failure(e) => Failure(e)
  {
    IndexOfIsFirst(line, '=', p);
  }

  /** Loading a + b is loading a, then b from where a left off. */
  lemma {:induction false} LoadLinesAppend(cfg: Config, a: seq<string>, b: seq<string>)
    ensures LoadLines(cfg, a + b) == Continue(LoadLines(cfg, a), b)
    decreases a
  {
    if a == [] {
      assert a + b == b;
    } else {
      assert (a + b)[0] == a[0];
      assert (a + b)[1..] == a[1..] + b;
      match ApplyLine(cfg, a[0])
      case Failure(e) =>
      case Success(next) => LoadLinesAppend(next, a[1..], b);
    }
  }

  /** Lines that mention no key leave every setting unchanged. */
  lemma {:induction false} LoadLinesIgnoresUnkeyed(cfg: Config, lines: seq<string>)
    requires forall i :: 0 <= i < |lines| ==> MentionsNoKey(lines[i])
    ensures LoadLines(cfg, lines) == LoadOutcome(cfg, None)
    decreases lines
  {
    if lines != [] {
      ApplyLineRules(cfg, lines[0]);
      LoadLinesIgnoresUnkeyed(cfg, lines[1..]);
    }
  }

  predicate NoBlankEnds(s: string)
  {
    s == [] || (!IsBlank(s[0]) && !IsBlank(s[|s| - 1]))
  }

  /** Loaded strings never start or end with a space or a tab. */
  lemma {:induction false} LoadLinesKeepsTrimmed(cfg: Config, lines: seq<string>)
    requires NoBlankEnds(cfg.apiUrl) && NoBlankEnds(cfg.robotId)
    ensures NoBlankEnds(LoadLines(cfg, lines).config.apiUrl)
    ensures NoBlankEnds(LoadLines(cfg, lines).config.robotId)
    decreases lines
  {
    if lines != [] {
      match ApplyLine(cfg, lines[0])
      case Failure(e) =>
      case Success(next) =>
        ApplyLineKeepsTrimmed(cfg, lines[0]);
        LoadLinesKeepsTrimmed(next, lines[1..]);
    }
  }

  /** One line keeps the URL and the robot id free of blank ends. */
  lemma ApplyLineKeepsTrimmed(cfg: Config, line: string)
    requires NoBlankEnds(cfg.apiUrl) && NoBlankEnds(cfg.robotId)
    requires ApplyLine(cfg, line).Success?
    ensures NoBlankEnds(ApplyLine(cfg, line).value.apiUrl)
    ensures NoBlankEnds(ApplyLine(cfg, line).value.robotId)
  {
    if Contains(line, "api_url") {
      match ValueAfterEquals(line)
      case None =>
      case Some(v) =>
        assert ApplyLine(cfg, line).value == cfg.(apiUrl := Trim(v));
    } else if Contains(line, "robot_id") {
      match ValueAfterEquals(line)
      case None =>
      case Some(v) =>
        assert ApplyLine(cfg, line).value == cfg.(robotId := Trim(v));
    } else {
      ApplyLineKeepsStrings(cfg, line);
    }
  }

  /** A line that mentions neither api_url nor robot_id changes at most the poll interval. */
  lemma ApplyLineKeepsStrings(cfg: Config, line: string)
    requires !Contains(line, "api_url") && !Contains(line, "robot_id")
    requires ApplyLine(cfg, line).Success?
    ensures ApplyLine(cfg, line).value.(pollInterval := cfg.pollInterval) == cfg
  {
    if Contains(line, "poll_interval") {
      match ValueAfterEquals(line)
      case None =>
      case Some(v) =>
        match Stoi(TrimLeft(v))
        case Success(n) =>
          assert ApplyLine(cfg, line).value == cfg.(pollInterval := n);
        case Failure(e) =>
    }
  }
}
