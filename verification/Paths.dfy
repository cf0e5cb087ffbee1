/** The exact native paths that ApprovedFile accepts (response_engine/triage.py). */
module Paths {

  datatype Platform = Windows | Linux

  // ---- splitting and joining ----

  /** str.split: there is always at least one part. */
  function Split(s: string, sep: char): (parts: seq<string>)
    ensures parts != []
  {
    if s == "" then [""]
    else
      var rest := Split(s[1..], sep);
      if s[0] == sep then [""] + rest else [[s[0]] + rest[0]] + rest[1..]
  }

  function Join(parts: seq<string>, sep: char): string
    requires parts != []
  {
    if |parts| == 1 then parts[0] else parts[0] + [sep] + Join(parts[1..], sep)
  }

  predicate Lacks(s: string, sep: char) {
    forall i :: 0 <= i < |s| ==> s[i] != sep
  }

  lemma {:induction false} SplitParts(s: string, sep: char)
    ensures Join(Split(s, sep), sep) == s
    ensures forall p :: p in Split(s, sep) ==> Lacks(p, sep)
  {
    if s != "" {
      var rest := Split(s[1..], sep);
      SplitParts(s[1..], sep);
      assert s == [s[0]] + s[1..];
      if s[0] == sep {
        assert ([""] + rest)[1..] == rest;
      } else {
        var parts := [[s[0]] + rest[0]] + rest[1..];
        assert parts[1..] == rest[1..];
        assert Lacks(rest[0], sep);
        assert Join(parts, sep) == [s[0]] + Join(rest, sep);
      }
    }
  }

  lemma {:induction false} SplitHead(head: string, tail: string, sep: char)
    requires Lacks(head, sep)
    ensures Split(head + [sep] + tail, sep) == [head] + Split(tail, sep)
  {
    var s := head + [sep] + tail;
    if head == "" {
      assert s[1..] == tail;
    } else {
      assert s[1..] == head[1..] + [sep] + tail;
      SplitHead(head[1..], tail, sep);
      assert [head[0]] + head[1..] == head;
    }
  }

  lemma {:induction false} SplitSingle(s: string, sep: char)
    requires Lacks(s, sep)
    ensures Split(s, sep) == [s]
  {
    if s != "" {
      SplitSingle(s[1..], sep);
      assert [s[0]] + s[1..] == s;
    }
  }

  lemma {:induction false} SplitJoin(parts: seq<string>, sep: char)
    requires parts != [] && forall p :: p in parts ==> Lacks(p, sep)
    ensures Split(Join(parts, sep), sep) == parts
  {
    if |parts| == 1 {
      SplitSingle(parts[0], sep);
    } else {
      SplitJoin(parts[1..], sep);
      SplitHead(parts[0], Join(parts[1..], sep), sep);
      assert [parts[0]] + parts[1..] == parts;
    }
  }

  // ---- the accepted paths, as the validator checks them ----

  predicate IsForbidden(c: char) {
    c as int < 32 || c as int == 127 || c == '*' || c == '?' || c == '[' || c == ']'
  }

  predicate IsDots(part: string) {
    part == "" || part == "." || part == ".."
  }

  predicate IsLetter(c: char) {
    'A' <= c <= 'Z' || 'a' <= c <= 'z'
  }

  function Upper(c: char): char {
    if 'a' <= c <= 'z' then (c as int - 32) as char else c
  }

  /** The text before the first dot. */
  function Stem(part: string): string {
    if part == "" || part[0] == '.' then "" else [part[0]] + Stem(part[1..])
  }

  /** CON, PRN, AUX, NUL, COM1 to COM9 and LPT1 to LPT9, in either case. */
  predicate IsDevice(stem: string) {
    || (|stem| == 3 && [Upper(stem[0]), Upper(stem[1]), Upper(stem[2])] in {"CON", "PRN", "AUX", "NUL"})
    || (|stem| == 4 && [Upper(stem[0]), Upper(stem[1]), Upper(stem[2])] in {"COM", "LPT"} && '1' <= stem[3] <= '9')
  }

  predicate IsWindowsPunctuation(c: char) {
    c == '<' || c == '>' || c == ':' || c == '"' || c == '|'
  }

  predicate EndsInDotOrSpace(part: string) {
    part != "" && (part[|part| - 1] == '.' || part[|part| - 1] == ' ')
  }

  predicate WindowsPartAllowed(part: string) {
    && (forall i :: 0 <= i < |part| ==> !IsWindowsPunctuation(part[i]))
    && !EndsInDotOrSpace(part)
    && !IsDevice(Stem(part))
  }

  predicate HasDrive(value: string) {
    |value| >= 3 && IsLetter(value[0]) && value[1] == ':' && value[2] == '\\'
  }

  /** exact_native_path, with the length bounds of the path field. */
  predicate Approved(platform: Platform, value: string) {
    && 1 <= |value| <= 4096
    && (forall i :: 0 <= i < |value| ==> !IsForbidden(value[i]))
    && match platform
       case Linux =>
         && value[0] == '/' && !(|value| >= 2 && value[1] == '/') && Lacks(value, '\\')
         && forall part :: part in Split(value, '/')[1..] ==> !IsDots(part)
       case Windows =>
         && HasDrive(value) && Lacks(value, '/')
         && forall part :: part in Split(value[3..], '\\') ==> WindowsPartAllowed(part) && !IsDots(part)
  }

  // ---- the grammar they are ----

  predicate LegalCharacters(part: string) {
    forall i :: 0 <= i < |part| ==> !IsForbidden(part[i]) && part[i] != '/' && part[i] != '\\'
  }

  predicate IsLinuxComponent(part: string) {
    !IsDots(part) && LegalCharacters(part)
  }

  predicate IsWindowsComponent(part: string) {
    !IsDots(part) && LegalCharacters(part) && WindowsPartAllowed(part)
  }

  predicate AllLinux(parts: seq<string>) {
    forall part :: part in parts ==> IsLinuxComponent(part)
  }

  predicate AllWindows(parts: seq<string>) {
    forall part :: part in parts ==> IsWindowsComponent(part)
  }

  predicate All(s: string, ok: char -> bool) {
    forall i :: 0 <= i < |s| ==> ok(s[i])
  }

  lemma AllConcat(s: string, t: string, ok: char -> bool)
    ensures All(s + t, ok) <==> All(s, ok) && All(t, ok)
  {
    assert forall i :: 0 <= i < |s| ==> (s + t)[i] == s[i];
    assert forall i :: 0 <= i < |t| ==> (s + t)[|s| + i] == t[i];
  }

  /** A condition on every character of a joined text is one on every character of its parts. */
  lemma {:induction false} JoinCharacters(parts: seq<string>, sep: char, ok: char -> bool)
    requires parts != [] && ok(sep)
    ensures All(Join(parts, sep), ok) <==> forall p :: p in parts ==> All(p, ok)
  {
    if |parts| > 1 {
      var head, rest := parts[0], Join(parts[1..], sep);
      JoinCharacters(parts[1..], sep, ok);
      AllConcat(head + [sep], rest, ok);
      AllConcat(head, [sep], ok);
      assert forall p :: p in parts <==> p == head || p in parts[1..];
    }
  }

  // ---- the character and name rules on their own terms ----

  /** Control characters, delete and the wildcard characters are forbidden, and no others. */
  lemma ForbiddenExactly(c: char)
    ensures IsForbidden(c) <==> (c as int) / 32 == 0 || c as int == 0x7F || c in {'*', '?', '[', ']'}
  {
  }

  lemma PunctuationExactly(c: char)
    ensures IsWindowsPunctuation(c) <==> c in {'<', '>', ':', '"', '|'}
  {
  }

  lemma LetterExactly(c: char)
    ensures IsLetter(c) <==> 65 <= c as int <= 90 || 97 <= c as int <= 122
  {
  }

  const DEVICES := {
    "CON", "PRN", "AUX", "NUL",
    "COM1", "COM2", "COM3", "COM4", "COM5", "COM6", "COM7", "COM8", "COM9",
    "LPT1", "LPT2", "LPT3", "LPT4", "LPT5", "LPT6", "LPT7", "LPT8", "LPT9"
  }

  function UpperText(s: string): string {
    seq(|s|, i requires 0 <= i < |s| => Upper(s[i]))
  }

  /** Only an ASCII small letter changes, by 32. */
  lemma UpperExactly(c: char)
    ensures Upper(c) as int == if 97 <= c as int <= 122 then c as int - 32 else c as int
  {
  }

  lemma ThreeUpper(s: string)
    requires |s| == 3
    ensures UpperText(s) == [Upper(s[0]), Upper(s[1]), Upper(s[2])]
  {
  }

  lemma FourUpper(s: string)
    requires |s| == 4
    ensures UpperText(s) == [Upper(s[0]), Upper(s[1]), Upper(s[2]), Upper(s[3])]
  {
  }

  lemma DigitUpper(c: char)
    ensures '1' <= Upper(c) <= '9' <==> '1' <= c <= '9'
    ensures '1' <= c <= '9' ==> Upper(c) == c
  {
  }

  /** A device name is one of twenty-two, in any case. */
  lemma DeviceExactly(stem: string)
    ensures IsDevice(stem) <==> UpperText(stem) in DEVICES
  {
    if |stem| == 3 {
      ThreeUpper(stem);
    } else if |stem| == 4 {
      FourUpper(stem);
      DigitUpper(stem[3]);
    }
  }

  lemma {:induction false} StemSplits(part: string)
    ensures Lacks(Stem(part), '.') && Stem(part) <= part
    ensures Stem(part) == part || part[|Stem(part)|] == '.'
  {
    if part != "" && part[0] != '.' {
      StemSplits(part[1..]);
    }
  }

  lemma {:induction false} StemOf(head: string, tail: string)
    requires Lacks(head, '.') && (tail == "" || tail[0] == '.')
    ensures Stem(head + tail) == head
  {
    if head != "" {
      assert (head + tail)[1..] == head[1..] + tail;
      StemOf(head[1..], tail);
    }
  }

  /** A part is reserved exactly when it is a device name, alone or before a dot. */
  lemma ReservedExactly(part: string)
    ensures IsDevice(Stem(part))
        <==> exists head, tail ::
               part == head + tail && Lacks(head, '.') && UpperText(head) in DEVICES && (tail == "" || tail[0] == '.')
  {
    StemSplits(part);
    DeviceExactly(Stem(part));
    assert part == Stem(part) + part[|Stem(part)|..];
    forall head, tail |
      part == head + tail && Lacks(head, '.') && UpperText(head) in DEVICES && (tail == "" || tail[0] == '.')
      ensures IsDevice(Stem(part))
    {
      StemOf(head, tail);
      DeviceExactly(head);
    }
  }

  lemma LegalExactly(part: string)
    ensures LegalCharacters(part)
        <==> forall c :: c in part ==> 32 <= c as int != 0x7F && c !in {'*', '?', '[', ']', '/', '\\'}
  {
    assert forall i :: 0 <= i < |part| ==> part[i] in part;
    forall c | c in part
      ensures LegalCharacters(part) ==> !IsForbidden(c) && c != '/' && c != '\\'
    {
    }
  }

  lemma UnpunctuatedExactly(part: string)
    ensures (forall i :: 0 <= i < |part| ==> !IsWindowsPunctuation(part[i]))
        <==> forall c :: c in part ==> c !in {'<', '>', ':', '"', '|'}
  {
    assert forall i :: 0 <= i < |part| ==> part[i] in part;
  }

  /**
   A Windows component is a text of legal characters that ends in neither a dot nor a space and is no
   device name, alone or before a dot.
   */
  lemma WindowsComponentExactly(part: string)
    ensures IsWindowsComponent(part)
        <==> && part != "" && part[|part| - 1] !in {'.', ' '}
             && LegalCharacters(part) && (forall c :: c in part ==> c !in {'<', '>', ':', '"', '|'})
             && !exists head, tail ::
                   part == head + tail && Lacks(head, '.') && UpperText(head) in DEVICES && (tail == "" || tail[0] == '.')
  {
    UnpunctuatedExactly(part);
    ReservedExactly(part);
  }

  function LinuxPath(parts: seq<string>): string
    requires parts != []
  {
    "/" + Join(parts, '/')
  }

  function WindowsPath(drive: char, parts: seq<string>): string
    requires parts != []
  {
    [drive] + ":\\" + Join(parts, '\\')
  }

  /** Components contain no separator, so splitting what they were joined to gives them back. */
  lemma ComponentsSplitBack(parts: seq<string>, sep: char)
    requires parts != [] && (sep == '/' || sep == '\\')
    requires forall part :: part in parts ==> LegalCharacters(part)
    ensures Split(Join(parts, sep), sep) == parts
  {
    SplitJoin(parts, sep);
  }

  /** The parts of a text with legal characters and separators only are legal. */
  lemma SplitLegal(text: string, sep: char)
    requires sep == '/' || sep == '\\'
    requires All(text, c => c == sep || (!IsForbidden(c) && c != '/' && c != '\\'))
    ensures forall part :: part in Split(text, sep) ==> LegalCharacters(part)
  {
    SplitParts(text, sep);
    var ok := c => c == sep || (!IsForbidden(c) && c != '/' && c != '\\');
    JoinCharacters(Split(text, sep), sep, ok);
    forall part | part in Split(text, sep)
      ensures LegalCharacters(part)
    {
      assert All(part, ok) && Lacks(part, sep);
    }
  }

  lemma JoinLegal(parts: seq<string>, sep: char)
    requires parts != [] && (sep == '/' || sep == '\\')
    requires forall part :: part in parts ==> LegalCharacters(part)
    ensures All(Join(parts, sep), c => c == sep || (!IsForbidden(c) && c != '/' && c != '\\'))
  {
    JoinCharacters(parts, sep, c => c == sep || (!IsForbidden(c) && c != '/' && c != '\\'));
  }

  /** Accepted Linux paths are a slash and a slash-join of one or more legal components, and nothing else. */
  lemma LinuxPathsExactly(value: string)
    ensures Approved(Linux, value)
        <==> |value| <= 4096 && exists parts :: parts != [] && AllLinux(parts) && value == LinuxPath(parts)
  {
    if Approved(Linux, value) {
      var rest := value[1..];
      assert value == "" + ['/'] + rest;
      SplitHead("", rest, '/');
      SplitParts(rest, '/');
      SplitLegal(rest, '/');
      var parts := Split(rest, '/');
      assert Split(value, '/')[1..] == parts;
      assert AllLinux(parts) && value == LinuxPath(parts);
    }
    forall parts | |value| <= 4096 && parts != [] && AllLinux(parts) && value == LinuxPath(parts)
      ensures Approved(Linux, value)
    {
      LinuxPathApproved(parts);
    }
  }

  lemma LinuxPathApproved(parts: seq<string>)
    requires parts != [] && AllLinux(parts) && |LinuxPath(parts)| <= 4096
    ensures Approved(Linux, LinuxPath(parts)) && Split(LinuxPath(parts), '/') == [""] + parts
  {
    var rest := Join(parts, '/');
    ComponentsSplitBack(parts, '/');
    JoinLegal(parts, '/');
    SplitHead("", rest, '/');
    assert LinuxPath(parts) == "" + ['/'] + rest;
    assert parts[0] in parts && rest[0] == parts[0][0];
    assert ([""] + parts)[1..] == parts;
  }

  /** Accepted Windows paths are a drive, a colon, and a backslash before each of one or more legal components. */
  lemma WindowsPathsExactly(value: string)
    ensures Approved(Windows, value)
        <==> |value| <= 4096 && exists drive, parts ::
               IsLetter(drive) && parts != [] && AllWindows(parts) && value == WindowsPath(drive, parts)
  {
    if Approved(Windows, value) {
      var rest := value[3..];
      SplitParts(rest, '\\');
      SplitLegal(rest, '\\');
      var parts := Split(rest, '\\');
      assert AllWindows(parts) && value == WindowsPath(value[0], parts);
    }
    forall drive, parts |
      |value| <= 4096 && IsLetter(drive) && parts != [] && AllWindows(parts) && value == WindowsPath(drive, parts)
      ensures Approved(Windows, value)
    {
      WindowsPathApproved(drive, parts);
    }
  }

  lemma WindowsPathApproved(drive: char, parts: seq<string>)
    requires IsLetter(drive) && parts != [] && AllWindows(parts) && |WindowsPath(drive, parts)| <= 4096
    ensures var value := WindowsPath(drive, parts);
            Approved(Windows, value) && value[0] == drive && Split(value[3..], '\\') == parts
  {
    var rest, value := Join(parts, '\\'), WindowsPath(drive, parts);
    ComponentsSplitBack(parts, '\\');
    JoinLegal(parts, '\\');
    assert value[3..] == rest;
    assert forall i :: 3 <= i < |value| ==> value[i] == rest[i - 3];
  }

  // ---- lexical normalisation ----

  /** Drops empty and dot parts, and lets a double dot take back the part before it. */
  function Resolve(parts: seq<string>, done: seq<string>): seq<string>
    decreases |parts|
  {
    if parts == [] then done
    else if parts[0] == "" || parts[0] == "." then Resolve(parts[1..], done)
    else if parts[0] == ".." then Resolve(parts[1..], if done == [] then [] else done[..|done| - 1])
    else Resolve(parts[1..], done + [parts[0]])
  }

  /** Windows ignores dots and spaces at the end of a component. */
  function Trim(part: string): string {
    if EndsInDotOrSpace(part) && !IsDots(part) then Trim(part[..|part| - 1]) else part
  }

  function Trimmed(parts: seq<string>): seq<string> {
    seq(|parts|, i requires 0 <= i < |parts| => Trim(parts[i]))
  }

  function Slashed(value: string): string {
    seq(|value|, i requires 0 <= i < |value| => if value[i] == '/' then '\\' else value[i])
  }

  function Normal(platform: Platform, value: string): string {
    match platform
    case Linux =>
      var parts := Resolve(Split(value, '/'), []);
      if parts == [] then "/" else LinuxPath(parts)
    case Windows =>
      if !HasDrive(Slashed(value)) then value
      else
        var parts := Resolve(Trimmed(Split(Slashed(value)[3..], '\\')), []);
        if parts == [] then value[..1] + ":\\" else WindowsPath(value[0], parts)
  }

  lemma {:induction false} ResolveKeeps(parts: seq<string>, done: seq<string>)
    requires forall part :: part in parts ==> !IsDots(part)
    ensures Resolve(parts, done) == done + parts
    decreases |parts|
  {
    if parts != [] {
      assert parts[0] in parts;
      ResolveKeeps(parts[1..], done + [parts[0]]);
      assert done + parts == done + [parts[0]] + parts[1..];
    } else {
      assert done + parts == done;
    }
  }

  /** Normalisation leaves an accepted path as it is. */
  lemma ApprovedIsNormal(platform: Platform, value: string)
    requires Approved(platform, value)
    ensures Normal(platform, value) == value
  {
    match platform
    case Linux =>
      LinuxPathsExactly(value);
      var parts :| parts != [] && AllLinux(parts) && value == LinuxPath(parts);
      LinuxPathApproved(parts);
      assert ([""] + parts)[1..] == parts;
      ResolveKeeps(parts, []);
      assert [] + parts == parts;
    case Windows =>
      WindowsPathsExactly(value);
      var drive, parts :|
        IsLetter(drive) && parts != [] && AllWindows(parts) && value == WindowsPath(drive, parts);
      WindowsPathApproved(drive, parts);
      assert Slashed(value) == value;
      assert Trimmed(parts) == parts by {
        forall i | 0 <= i < |parts|
          ensures Trim(parts[i]) == parts[i]
        {
          assert parts[i] in parts;
        }
      }
      ResolveKeeps(parts, []);
      assert [] + parts == parts;
  }

  /** Two accepted paths that normalise alike are the same path. */
  lemma ApprovedPathsStayDistinct(platform: Platform, value: string, other: string)
    requires Approved(platform, value) && Approved(platform, other)
    requires Normal(platform, value) == Normal(platform, other)
    ensures value == other
  {
    ApprovedIsNormal(platform, value);
    ApprovedIsNormal(platform, other);
  }
}
