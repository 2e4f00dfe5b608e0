/** The deploy.conf file: the server prints it into the installation package, the
    agent's silent installation reads it back. */
module DeployConf {
  import opened Wrappers
  import opened Text

  datatype Conf = Conf(serverUrl: string, token: string, enrollSecret: string)

  datatype ConfError = MissingServer

  // ---------------------------------------------------------------------
  // Trimming
  // ---------------------------------------------------------------------

  /** White space as unicode.IsSpace has it. */
  predicate IsSpace(c: char) {
    var n := c as int;
    || 9 <= n <= 13 || n == 32 || n == 0x85 || n == 0xA0 || n == 0x1680
    || 0x2000 <= n <= 0x200A || n == 0x2028 || n == 0x2029 || n == 0x202F || n == 0x205F || n == 0x3000
  }

  /** The white space among the first 128 characters: tab to carriage return, and the blank. */
  lemma AsciiSpaces(c: char)
    requires c as int < 128
    ensures IsSpace(c) <==> c as int in {9, 10, 11, 12, 13, 32}
  {
  }

  function TrimLeft(s: string): string {
    if s != "" && IsSpace(s[0]) then TrimLeft(s[1..]) else s
  }

  function TrimRight(s: string): string {
    if s != "" && IsSpace(s[|s| - 1]) then TrimRight(s[..|s| - 1]) else s
  }

  function Trim(s: string): string {
    TrimRight(TrimLeft(s))
  }

  predicate Trimmed(s: string) {
    s != "" ==> !IsSpace(s[0]) && !IsSpace(s[|s| - 1])
  }

  lemma {:induction false} TrimLeftEffect(s: string)
    ensures var t := TrimLeft(s);
            && |t| <= |s| && t == s[|s| - |t|..]
            && (t != "" ==> !IsSpace(t[0]))
  {
    if s != "" && IsSpace(s[0]) {
      TrimLeftEffect(s[1..]);
    }
  }

  lemma {:induction false} TrimRightEffect(s: string)
    ensures var t := TrimRight(s);
            && t <= s
            && (t != "" ==> !IsSpace(t[|t| - 1]))
  {
    if s != "" && IsSpace(s[|s| - 1]) {
      TrimRightEffect(s[..|s| - 1]);
    }
  }

  lemma TrimEffect(s: string)
    ensures Trimmed(Trim(s))
    ensures forall c :: c in Trim(s) ==> c in s
    ensures Trimmed(s) ==> Trim(s) == s
  {
    TrimLeftEffect(s);
    TrimRightEffect(TrimLeft(s));
  }

  // ---------------------------------------------------------------------
  // Reading
  // ---------------------------------------------------------------------

  /** strings.SplitN(line, "=", 2): the parts before and after the first separator. */
  function Cut(line: string): Option<(string, string)> {
    if line == "" then None
    else if line[0] == '=' then Some(("", line[1..]))
    else
      match Cut(line[1..])
      case None => None
      case Some((key, value)) => Some(([line[0]] + key, value))
  }

  /** What a line assigns, if it is neither blank nor a comment and has a separator. */
  function Assignment(line: string): Option<(string, string)> {
    var line := Trim(line);
    if line == "" || line[0] == '#' then None
    else
      match Cut(line)
      case None => None
      case Some((key, value)) => Some((Trim(key), Trim(value)))
  }

  /** The last assignment of a key counts. */
  function LastValue(lines: seq<string>, key: string): string {
    if lines == [] then ""
    else
      var a := Assignment(lines[|lines| - 1]);
      if a.Some? && a.value.0 == key then a.value.1 else LastValue(lines[..|lines| - 1], key)
  }

  function Parse(data: string): Result<Conf, ConfError> {
    var lines := Split(data, '\n');
    if LastValue(lines, "server") == "" then Failure(MissingServer)
    else Success(Conf(LastValue(lines, "server"), LastValue(lines, "token"), LastValue(lines, "enroll")))
  }

  /** The reader keeps one variable for each key while it goes over the lines once. */
  method LoadDeployConf(data: string) returns (r: Result<Conf, ConfError>)
    ensures r == Parse(data)
  {
    var serverUrl, token, enrollSecret := "", "", "";
    var lines := Split(data, '\n');
    for i := 0 to |lines|
      invariant serverUrl == LastValue(lines[..i], "server")
      invariant token == LastValue(lines[..i], "token")
      invariant enrollSecret == LastValue(lines[..i], "enroll")
    {
      assert lines[..i + 1][..i] == lines[..i];
      var line := Trim(lines[i]);
      if "#" <= line || line == "" {
        continue;
      }
      var parts := Cut(line);
      if parts.None? {
        continue;
      }
      var key := Trim(parts.value.0);
      var val := Trim(parts.value.1);
      if key == "server" {
        serverUrl := val;
      }
      if key == "enroll" {
        enrollSecret := val;
      }
      if key == "token" {
        token := val;
      }
    }
    assert lines[..|lines|] == lines;
    if serverUrl == "" {
      return Failure(MissingServer);
    }
    return Success(Conf(serverUrl, token, enrollSecret));
  }

  // ---------------------------------------------------------------------
  // Printing
  // ---------------------------------------------------------------------

  function Print(serverUrl: string, enrollSecret: string): string {
    "# LAN Agent deploy config\n" + "server=" + serverUrl + "\n" + "enroll=" + enrollSecret + "\n"
  }

  /** One line that trimming leaves alone. */
  predicate Printable(s: string) {
    '\n' !in s && Trimmed(s)
  }

  lemma {:induction false} CutEffect(key: string, value: string)
    requires '=' !in key
    ensures Cut(key + "=" + value) == Some((key, value))
  {
    var line := key + "=" + value;
    if key == "" {
      assert line[1..] == value;
    } else {
      assert line[1..] == key[1..] + "=" + value;
      CutEffect(key[1..], value);
      assert key == [key[0]] + key[1..];
    }
  }

  lemma {:induction false} CutParts(line: string)
    ensures Cut(line).Some? ==>
              (forall c :: c in Cut(line).value.0 || c in Cut(line).value.1 ==> c in line)
  {
    if line != "" && line[0] != '=' {
      CutParts(line[1..]);
    }
  }

  lemma PrintedAssignment(key: string, value: string)
    requires key != "" && Trimmed(key) && Trimmed(value) && '=' !in key && key[0] != '#'
    ensures Assignment(key + "=" + value) == Some((key, value))
  {
    var line := key + "=" + value;
    assert line[0] == key[0];
    assert line[|line| - 1] == if value == "" then '=' else value[|value| - 1];
    TrimEffect(line);
    CutEffect(key, value);
    TrimEffect(key);
    TrimEffect(value);
  }

  lemma CommentAssignsNothing(line: string)
    requires line != "" && line[0] == '#' && Trimmed(line)
    ensures Assignment(line) == None
  {
    TrimEffect(line);
  }

  lemma PrintedLines(serverUrl: string, enrollSecret: string)
    requires '\n' !in serverUrl && '\n' !in enrollSecret
    ensures Split(Print(serverUrl, enrollSecret), '\n') ==
            ["# LAN Agent deploy config", "server=" + serverUrl, "enroll=" + enrollSecret, ""]
  {
    var header, server, enroll := "# LAN Agent deploy config", "server=" + serverUrl, "enroll=" + enrollSecret;
    var text := Print(serverUrl, enrollSecret);
    assert header + ['\n'] <= text;
    SplitFirst(header, text, '\n');
    var text1 := text[|header| + 1..];
    assert text1 == server + ['\n'] + (enroll + ['\n']);
    SplitFirst(server, text1, '\n');
    var text2 := text1[|server| + 1..];
    assert text2 == enroll + ['\n'];
    SplitFirst(enroll, text2, '\n');
    assert text2[|enroll| + 1..] == "";
  }

  lemma LastValueOfLonger(lines: seq<string>, line: string, key: string)
    ensures LastValue(lines + [line], key) ==
            match Assignment(line)
            case Some((k, v)) => if k == key then v else LastValue(lines, key)
            case None => LastValue(lines, key)
  {
    assert (lines + [line])[..|lines|] == lines;
  }

  lemma TwoAssignments(comment: string, first: string, second: string, blank: string,
                       k1: string, v1: string, k2: string, v2: string, key: string)
    requires Assignment(comment) == None && Assignment(blank) == None
    requires Assignment(first) == Some((k1, v1)) && Assignment(second) == Some((k2, v2))
    ensures LastValue([comment, first, second, blank], key) ==
            if k2 == key then v2 else if k1 == key then v1 else ""
  {
    LastValueOfLonger([], comment, key);
    LastValueOfLonger([comment], first, key);
    LastValueOfLonger([comment, first], second, key);
    LastValueOfLonger([comment, first, second], blank, key);
    assert [] + [comment] == [comment];
    assert [comment] + [first] == [comment, first];
    assert [comment, first] + [second] == [comment, first, second];
    assert [comment, first, second] + [blank] == [comment, first, second, blank];
  }

  lemma PrintedValue(serverUrl: string, enrollSecret: string, key: string)
    requires Printable(serverUrl) && Printable(enrollSecret)
    ensures LastValue(Split(Print(serverUrl, enrollSecret), '\n'), key) ==
            if "enroll" == key then enrollSecret else if "server" == key then serverUrl else ""
  {
    PrintedLines(serverUrl, enrollSecret);
    CommentAssignsNothing("# LAN Agent deploy config");
    PrintedAssignment("server", serverUrl);
    PrintedAssignment("enroll", enrollSecret);
    assert "server=" + serverUrl == "server" + "=" + serverUrl;
    assert "enroll=" + enrollSecret == "enroll" + "=" + enrollSecret;
    TwoAssignments("# LAN Agent deploy config", "server=" + serverUrl, "enroll=" + enrollSecret, "",
                   "server", serverUrl, "enroll", enrollSecret, key);
  }

  lemma PrintedValues(serverUrl: string, enrollSecret: string)
    requires Printable(serverUrl) && Printable(enrollSecret)
    ensures var lines := Split(Print(serverUrl, enrollSecret), '\n');
            && LastValue(lines, "server") == serverUrl
            && LastValue(lines, "token") == ""
            && LastValue(lines, "enroll") == enrollSecret
  {
    PrintedValue(serverUrl, enrollSecret, "server");
    PrintedValue(serverUrl, enrollSecret, "token");
    PrintedValue(serverUrl, enrollSecret, "enroll");
  }

  /** A value that was read is one line without outer white space. */
  lemma {:induction false} ValuesArePrintable(lines: seq<string>, key: string)
    requires forall i :: 0 <= i < |lines| ==> '\n' !in lines[i]
    ensures Printable(LastValue(lines, key))
  {
    if lines != [] {
      var line := lines[|lines| - 1];
      TrimEffect(line);
      CutParts(Trim(line));
      if Cut(Trim(line)).Some? {
        TrimEffect(Cut(Trim(line)).value.1);
      }
      ValuesArePrintable(lines[..|lines| - 1], key);
    }
  }

  /** The round trip, for every address and every secret: reading the printed file
      gives back exactly the two of them and no token if and only if both are
      single lines without outer white space and the address is not empty. Equals
      signs may occur anywhere, and the secret may be empty. */
  lemma RoundTrip(serverUrl: string, enrollSecret: string)
    ensures Parse(Print(serverUrl, enrollSecret)) == Success(Conf(serverUrl, "", enrollSecret)) <==>
            serverUrl != "" && Printable(serverUrl) && Printable(enrollSecret)
  {
    var lines := Split(Print(serverUrl, enrollSecret), '\n');
    ValuesArePrintable(lines, "server");
    ValuesArePrintable(lines, "enroll");
    if Printable(serverUrl) && Printable(enrollSecret) {
      PrintedValues(serverUrl, enrollSecret);
    }
  }

  // ---------------------------------------------------------------------
  // What is read from any text
  // ---------------------------------------------------------------------

  predicate Blank(w: string) {
    forall c :: c in w ==> IsSpace(c)
  }

  /** The line says key = value, with white space around each of the three or none. */
  ghost predicate Reads(line: string, key: string, value: string) {
    && Trimmed(value)
    && exists w1, w2, w3, w4 :: Blank(w1) && Blank(w2) && Blank(w3) && Blank(w4)
                                && line == w1 + (key + w2) + "=" + (w3 + value) + w4
  }

  ghost predicate SaysNothing(line: string, key: string) {
    forall u :: !Reads(line, key, u)
  }

  predicate IsKey(key: string) {
    key != "" && Trimmed(key) && '=' !in key && key[0] != '#'
  }

  lemma {:induction false} TrimLeftBlank(w: string, s: string)
    requires Blank(w) && (s != "" ==> !IsSpace(s[0]))
    ensures TrimLeft(w + s) == s
  {
    if w == "" {
      assert w + s == s;
    } else {
      assert w[0] in w && (w + s)[1..] == w[1..] + s;
      TrimLeftBlank(w[1..], s);
    }
  }

  lemma {:induction false} TrimRightBlank(s: string, w: string)
    requires Blank(w) && (s != "" ==> !IsSpace(s[|s| - 1]))
    ensures TrimRight(s + w) == s
  {
    if w == "" {
      assert s + w == s;
    } else {
      assert w[|w| - 1] in w && (s + w)[..|s + w| - 1] == s + w[..|w| - 1];
      TrimRightBlank(s, w[..|w| - 1]);
    }
  }

  lemma TrimAround(w1: string, s: string, w2: string)
    requires Blank(w1) && Trimmed(s) && Blank(w2)
    ensures Trim(w1 + s + w2) == s
  {
    if s == "" {
      assert w1 + s + w2 == (w1 + w2) + "";
      TrimLeftBlank(w1 + w2, "");
    } else {
      assert w1 + s + w2 == w1 + (s + w2);
      TrimLeftBlank(w1, s + w2);
      TrimRightBlank(s, w2);
    }
  }

  lemma {:induction false} TrimmedOff(s: string) returns (w1: string, w2: string)
    ensures Blank(w1) && Blank(w2) && s == w1 + Trim(s) + w2
  {
    w1 := LeftOff(s);
    w2 := RightOff(TrimLeft(s));
    assert w1 + Trim(s) + w2 == w1 + (Trim(s) + w2);
  }

  lemma {:induction false} LeftOff(s: string) returns (w: string)
    ensures Blank(w) && s == w + TrimLeft(s)
  {
    w := "";
    if s != "" && IsSpace(s[0]) {
      w := LeftOff(s[1..]);
      w := [s[0]] + w;
    }
  }

  lemma {:induction false} RightOff(s: string) returns (w: string)
    ensures Blank(w) && s == TrimRight(s) + w
  {
    w := "";
    if s != "" && IsSpace(s[|s| - 1]) {
      w := RightOff(s[..|s| - 1]);
      w := w + [s[|s| - 1]];
    }
  }

  lemma {:induction false} CutIsFirst(line: string)
    ensures match Cut(line)
            case Some((key, value)) => '=' !in key && line == key + "=" + value
            case None => '=' !in line
  {
    if line != "" && line[0] != '=' {
      CutIsFirst(line[1..]);
      assert line == [line[0]] + line[1..];
    }
  }

  lemma Regroup(w1: string, k: string, v: string, w4: string)
    ensures w1 + k + "=" + v + w4 == w1 + (k + "=" + v) + w4
    ensures w1 + k + "=" + v + w4 == w1 + (k + "=") + (v + w4)
  {
  }

  lemma RegroupOuter(w1: string, a: string, k: string, v: string, b: string, w4: string)
    ensures w1 + ((a + k) + "=" + (v + b)) + w4 == (w1 + a) + k + "=" + v + (b + w4)
  {
    var line := w1 + ((a + k) + "=" + (v + b)) + w4;
    var inner := k + "=" + v;
    assert (a + k) + "=" + (v + b) == a + inner + b;
    assert line == (w1 + a) + inner + (b + w4);
    Regroup(w1 + a, k, v, b + w4);
  }

  lemma LineAssigns(w1: string, key: string, w2: string, w3: string, value: string, w4: string)
    requires IsKey(key) && Trimmed(value) && Blank(w1) && Blank(w2) && Blank(w3) && Blank(w4)
    ensures Assignment(w1 + (key + w2) + "=" + (w3 + value) + w4) == Some((key, value))
  {
    var k, v := key + w2, w3 + value;
    Regroup(w1, k, v, w4);
    KeyPart(key, w2);
    if value == "" {
      assert v == w3;
      CoreAssigns(w1, key, k, "", "", w3 + w4);
      assert k + "=" + "" == k + "=";
    } else {
      CoreAssigns(w1, key, k, v, value, w4);
    }
    TrimAround(w3, value, "");
    assert w3 + value + "" == v;
  }

  lemma KeyPart(key: string, w2: string)
    requires IsKey(key) && Blank(w2)
    ensures Trim(key + w2) == key && '=' !in key + w2
  {
    TrimAround("", key, w2);
    assert "" + key + w2 == key + w2;
    assert !IsSpace('=');
  }

  lemma CoreAssigns(w1: string, key: string, k: string, v: string, value: string, end: string)
    requires Blank(w1) && Blank(end) && k != "" && !IsSpace(k[0]) && k[0] != '#' && '=' !in k && Trim(k) == key
    requires v != "" ==> !IsSpace(v[|v| - 1])
    ensures Assignment(w1 + (k + "=" + v) + end) == Some((key, Trim(v)))
  {
    var core := k + "=" + v;
    assert core[0] == k[0] && core[|core| - 1] == if v == "" then '=' else v[|v| - 1];
    TrimAround(w1, core, end);
    CutEffect(k, v);
  }

  lemma ReadsAssigns(line: string, key: string, value: string)
    requires IsKey(key) && Reads(line, key, value)
    ensures Assignment(line) == Some((key, value))
  {
    hide Assignment, Trimmed;
    var w1, w2, w3, w4 :| Blank(w1) && Blank(w2) && Blank(w3) && Blank(w4)
                          && line == w1 + (key + w2) + "=" + (w3 + value) + w4;
    LineAssigns(w1, key, w2, w3, value, w4);
  }

  lemma AssignsReads(line: string, key: string, value: string)
    requires Assignment(line) == Some((key, value))
    ensures Reads(line, key, value)
  {
    var core := Trim(line);
    var w1, w4 := TrimmedOff(line);
    CutIsFirst(core);
    var (k, v) := Cut(core).value;
    var a, w2 := TrimmedOff(k);
    var w3, b := TrimmedOff(v);
    TrimEffect(v);
    hide Trim, Cut, Trimmed, Reads;
    assert k == a + (key + w2);
    assert v == (w3 + value) + b;
    PartsRead(line, w1, a, key, w2, w3, value, b, w4);
  }

  lemma PartsRead(line: string, w1: string, a: string, key: string, w2: string, w3: string, value: string, b: string, w4: string)
    requires Trimmed(value) && Blank(w1) && Blank(a) && Blank(w2) && Blank(w3) && Blank(b) && Blank(w4)
    requires line == w1 + ((a + (key + w2)) + "=" + ((w3 + value) + b)) + w4
    ensures Reads(line, key, value)
  {
    hide Trimmed;
    RegroupOuter(w1, a, key + w2, w3 + value, b, w4);
    var before, after := w1 + a, b + w4;
    assert Blank(before) && Blank(after);
    assert line == before + (key + w2) + "=" + (w3 + value) + after;
  }

  /** In this text the last line that reads key = something gives the value; if no line
      does, the value is empty. */
  ghost predicate Gives(lines: seq<string>, key: string, value: string) {
    || (value == "" && forall i :: 0 <= i < |lines| ==> SaysNothing(lines[i], key))
    || exists i :: LastReading(lines, i, key, value)
  }

  ghost predicate LastReading(lines: seq<string>, i: int, key: string, value: string) {
    && 0 <= i < |lines| && Reads(lines[i], key, value)
    && forall k :: i < k < |lines| ==> SaysNothing(lines[k], key)
  }

  lemma NothingGiven(line: string, key: string)
    requires IsKey(key) && (Assignment(line).Some? ==> Assignment(line).value.0 != key)
    ensures SaysNothing(line, key)
  {
    forall u | Reads(line, key, u) ensures false {
      ReadsAssigns(line, key, u);
    }
  }

  lemma {:induction false} LastValueIsGiven(lines: seq<string>, key: string)
    requires IsKey(key)
    ensures Gives(lines, key, LastValue(lines, key))
  {
    if lines != [] {
      var n := |lines| - 1;
      var a := Assignment(lines[n]);
      if a.Some? && a.value.0 == key {
        AssignsReads(lines[n], key, a.value.1);
        assert LastReading(lines, n, key, a.value.1);
      } else {
        NothingGiven(lines[n], key);
        LastValueIsGiven(lines[..n], key);
        GivesLonger(lines, key, LastValue(lines[..n], key));
      }
    }
  }

  lemma GivesLonger(lines: seq<string>, key: string, value: string)
    requires lines != [] && Gives(lines[..|lines| - 1], key, value) && SaysNothing(lines[|lines| - 1], key)
    ensures Gives(lines, key, value)
  {
    hide Reads, SaysNothing;
    var before := lines[..|lines| - 1];
    assert forall i :: 0 <= i < |before| ==> before[i] == lines[i];
    if i :| LastReading(before, i, key, value) {
      assert LastReading(lines, i, key, value);
    }
  }

  lemma OneGiven(lines: seq<string>, key: string, value: string, other: string)
    requires IsKey(key) && Gives(lines, key, value) && Gives(lines, key, other)
    ensures value == other
  {
    hide Reads;
    if i, j :| LastReading(lines, i, key, value) && LastReading(lines, j, key, other) {
      assert i == j;
      ReadsAssigns(lines[i], key, value);
      ReadsAssigns(lines[j], key, other);
    }
  }

  /** Reading, for every text: the three values are those of the last lines that read
      server, token and enroll, each empty without such a line; it fails if and only if
      the address is empty. */
  lemma ParseIff(data: string, conf: Conf)
    ensures var lines := Split(data, '\n');
            Parse(data) == Success(conf) <==>
            && conf.serverUrl != ""
            && Gives(lines, "server", conf.serverUrl)
            && Gives(lines, "token", conf.token)
            && Gives(lines, "enroll", conf.enrollSecret)
    ensures Parse(data) == Failure(MissingServer) <==> Gives(Split(data, '\n'), "server", "")
  {
    hide Gives;
    var lines := Split(data, '\n');
    var server, token, enroll := "server", "token", "enroll";
    assert IsKey(server) && IsKey(token) && IsKey(enroll);
    ValueIff(lines, server);
    ValueIff(lines, token);
    ValueIff(lines, enroll);
  }

  lemma ValueIff(lines: seq<string>, key: string)
    requires IsKey(key)
    ensures forall v :: Gives(lines, key, v) <==> LastValue(lines, key) == v
  {
    LastValueIsGiven(lines, key);
    forall v | Gives(lines, key, v) ensures LastValue(lines, key) == v {
      OneGiven(lines, key, v, LastValue(lines, key));
    }
  }

  /** A line for one key at the end of a text that was accepted sets this value and
      leaves the other two. */
  lemma AppendedLine(data: string, line: string, key: string, value: string)
    requires Parse(data).Success? && '\n' !in line && Reads(line, key, value)
    requires key == "server" || key == "token" || key == "enroll"
    ensures var conf := Parse(data).value;
            Parse(data + "\n" + line) ==
            if key == "token" then Success(conf.(token := value))
            else if key == "enroll" then Success(conf.(enrollSecret := value))
            else if value == "" then Failure(MissingServer)
            else Success(conf.(serverUrl := value))
  {
    var lines := Split(data, '\n');
    SplitConcat(data, line, '\n');
    SplitNone(line, '\n');
    assert data + "\n" + line == data + ['\n'] + line;
    assert IsKey(key);
    ReadsAssigns(line, key, value);
    LastValueOfLonger(lines, line, "server");
    LastValueOfLonger(lines, line, "token");
    LastValueOfLonger(lines, line, "enroll");
  }
}
