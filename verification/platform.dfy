/** The parts of Ruby's core library and of the shell that the packaging code
    relies on: truthiness of `system` results, exceptions as values,
    `String#strip`, `File.extname`, `File.basename(name, suffix)` and the
    shell glob `*.ext`. */
module Platform {

  datatype Option<+T> = None | Some(value: T)

  /** The value a Ruby `system` call returns: true (exit status 0), false
      (non-zero exit status) or nil (the command could not be run). */
  datatype Value = RTrue | RFalse | RNil {
    predicate Truthy() { RTrue? }
  }

  function FromBool(b: bool): (v: Value)
    ensures v.Truthy() == b && v != RNil
  {
    if b then RTrue else RFalse
  }

  /** Ruby's `a and b and ...`: the first operand that is false or nil,
      or the last operand when all are truthy. */
  function AndChain(vs: seq<Value>): Value
    requires |vs| > 0
  {
    if |vs| == 1 || !vs[0].Truthy() then vs[0] else AndChain(vs[1..])
  }

  lemma {:induction false} AndChainPicksFirstFalsey(vs: seq<Value>)
    requires |vs| > 0
    ensures AndChain(vs).Truthy() <==> forall k :: 0 <= k < |vs| ==> vs[k].Truthy()
    ensures forall k :: 0 <= k < |vs| && !vs[k].Truthy() && (forall m :: 0 <= m < k ==> vs[m].Truthy()) ==> AndChain(vs) == vs[k]
  {
    if |vs| > 1 && vs[0].Truthy() {
      AndChainPicksFirstFalsey(vs[1..]);
      assert forall k :: 1 <= k < |vs| ==> vs[k] == vs[1..][k - 1];
    }
  }

  /** An exception raised by the code, carried as a value. */
  datatype Error =
    | NoSuchEntry(name: string)   // Errno::ENOENT from File.read
    | NoSuchDirectory             // Errno::ENOENT from Dir.open
    | CompileError(name: string)  // Uglifier or Sass rejected a file
    | NilMatch                    // NoMethodError: `[]` called on the nil of a failed match

  /** The result of Ruby code that either returns a value or raises. */
  datatype Outcome<+T> = Returned(value: T) | Raised(error: Error)

  /** A directory listing names each entry once. */
  predicate Distinct(names: seq<string>) {
    forall a, b :: 0 <= a < b < |names| ==> names[a] != names[b]
  }

  predicate EndsWith(s: string, suffix: string) {
    |suffix| <= |s| && s[|s| - |suffix|..] == suffix
  }

  // ---------------------------------------------------------------------
  // String#strip

  /** The characters Ruby's `strip` removes: NUL, tab, line feed, vertical
      tab, form feed, carriage return and space. */
  predicate IsSpace(c: char) {
    c == '\0' || c == '\t' || c == '\n' || c == '\U{B}' || c == '\U{C}' || c == '\r' || c == ' '
  }

  /** Ruby's `strip`: leading and trailing whitespace removed, one
      character at a time. */
  function Strip(s: string): string
    decreases |s|
  {
    if s != [] && IsSpace(s[0]) then Strip(s[1..])
    else if s != [] && IsSpace(s[|s| - 1]) then Strip(s[..|s| - 1])
    else s
  }

  /** `s[i..j]` is `s` with only whitespace around it removed. */
  ghost predicate SpaceAround(s: string, i: nat, j: nat) {
    && i <= j <= |s|
    && (forall k :: 0 <= k < i ==> IsSpace(s[k]))
    && (forall k :: j <= k < |s| ==> IsSpace(s[k]))
  }

  /** The span of `s` that `strip` keeps. */
  lemma {:induction false} StripSpan(s: string) returns (i: nat, j: nat)
    ensures SpaceAround(s, i, j) && Strip(s) == s[i..j]
    decreases |s|
  {
    if s != [] && IsSpace(s[0]) {
      var t := s[1..];
      var i', j' := StripSpan(t);
      i, j := i' + 1, j' + 1;
      assert t[i'..j'] == s[i..j];
      forall k | 0 < k < i ensures IsSpace(s[k]) {
        assert s[k] == t[k - 1];
      }
      forall k | j <= k < |s| ensures IsSpace(s[k]) {
        assert s[k] == t[k - 1];
      }
    } else if s != [] && IsSpace(s[|s| - 1]) {
      var t := s[..|s| - 1];
      i, j := StripSpan(t);
      assert t[i..j] == s[i..j];
      forall k | j <= k < |s| - 1 ensures IsSpace(s[k]) {
        assert s[k] == t[k];
      }
    } else {
      i, j := 0, |s|;
      assert s[i..j] == s;
    }
  }

  /** What `strip` returns neither starts nor ends with whitespace. */
  lemma {:induction false} StripEnds(s: string)
    ensures Strip(s) == [] || (!IsSpace(Strip(s)[0]) && !IsSpace(Strip(s)[|Strip(s)| - 1]))
    decreases |s|
  {
    if s != [] && IsSpace(s[0]) {
      StripEnds(s[1..]);
    } else if s != [] && IsSpace(s[|s| - 1]) {
      StripEnds(s[..|s| - 1]);
    }
  }

  /** `strip` removes exactly the leading and trailing whitespace: the result
      is an infix of the input, everything around it is whitespace, and it
      neither starts nor ends with whitespace. */
  lemma StripIsTrimmedInfix(s: string)
    ensures exists i: nat, j: nat :: SpaceAround(s, i, j) && Strip(s) == s[i..j]
    ensures Strip(s) == [] || (!IsSpace(Strip(s)[0]) && !IsSpace(Strip(s)[|Strip(s)| - 1]))
  {
    var i, j := StripSpan(s);
    StripEnds(s);
  }

  lemma StripIdempotent(s: string)
    ensures Strip(Strip(s)) == Strip(s)
  {
    StripEnds(s);
  }

  // ---------------------------------------------------------------------
  // File.extname, File.basename(name, suffix)

  function DropLeadingDots(s: string): string {
    if s != [] && s[0] == '.' then DropLeadingDots(s[1..]) else s
  }

  /** Dropping the leading dots leaves a suffix that does not start with one. */
  lemma {:induction false} DropLeadingDotsSuffix(s: string)
    ensures var r := DropLeadingDots(s); |r| <= |s| && r == s[|s| - |r|..] && (r == [] || r[0] != '.')
  {
    if s != [] && s[0] == '.' {
      DropLeadingDotsSuffix(s[1..]);
    }
  }

  /** The extension of a name that does not start with a dot: from its last
      dot to the end, or "" when it has no dot. */
  function ExtOf(s: string): string {
    if s == [] then ""
    else if s[|s| - 1] == '.' then "."
    else
      var e := ExtOf(s[..|s| - 1]);
      if e == "" then "" else e + [s[|s| - 1]]
  }

  /** Ruby's `File.extname` of a bare file name: leading dots are skipped,
      then the extension runs from the last dot to the end ("" when there is
      no such dot). */
  function Extname(name: string): string {
    ExtOf(DropLeadingDots(name))
  }

  /** An extension: one dot, then no further dot. */
  predicate IsExtension(ext: string) {
    |ext| >= 1 && ext[0] == '.' && forall k :: 1 <= k < |ext| ==> ext[k] != '.'
  }

  /** Ending with `e` is ending with `e` minus its last character and
      then that character. */
  lemma EndsWithSnoc(s: string, e: string)
    requires |s| >= 1 && |e| >= 1
    ensures EndsWith(s, e) <==> EndsWith(s[..|s| - 1], e[..|e| - 1]) && s[|s| - 1] == e[|e| - 1]
  {
    if |e| <= |s| {
      var t := s[|s| - |e|..];
      var init := s[..|s| - 1];
      assert init[|init| - (|e| - 1)..] == t[..|e| - 1];
      assert t == t[..|e| - 1] + [s[|s| - 1]];
      assert e == e[..|e| - 1] + [e[|e| - 1]];
    }
  }

  lemma {:induction false} ExtOfIs(s: string, ext: string)
    requires IsExtension(ext)
    ensures ExtOf(s) == ext <==> EndsWith(s, ext)
    decreases |s|
  {
    if s != [] {
      EndsWithSnoc(s, ext);
      var c := s[|s| - 1];
      if |ext| == 1 {
        assert ext == ".";
      } else {
        var shorter := ext[..|ext| - 1];
        assert IsExtension(shorter);
        if c != '.' {
          ExtOfIs(s[..|s| - 1], shorter);
          assert ext == shorter + [ext[|ext| - 1]];
        }
      }
    }
  }

  /** For an extension such as ".js": a name has it exactly when the name,
      leading dots removed, ends with it. So "a.js" and ".a.js" have it,
      while ".js", "a.JS" and "a.js.map" do not. */
  lemma ExtnameIs(name: string, ext: string)
    requires IsExtension(ext)
    ensures Extname(name) == ext <==> EndsWith(DropLeadingDots(name), ext)
  {
    ExtOfIs(DropLeadingDots(name), ext);
  }

  /** Ruby's `File.basename(name, suffix)` on a bare file name: the suffix is
      removed when the name ends with it and something remains. */
  function BasenameWithout(name: string, suffix: string): string {
    if EndsWith(name, suffix) && |name| > |suffix| then name[..|name| - |suffix|] else name
  }

  // ---------------------------------------------------------------------
  // Shell glob

  /** Whether the shell pattern `*<suffix>` matches a name: `*` matches any
      text but not a leading dot. */
  predicate GlobMatches(name: string, suffix: string) {
    EndsWith(name, suffix) && (name == [] || name[0] != '.')
  }
}
