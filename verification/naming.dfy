/** Field name to Go identifier conversion of the generator (goTypeName): split the
    name at separators, upper-case known abbreviations, title-case every word and
    concatenate. Letter case follows ASCII only. */
module Naming {

  /** isSeparator: the characters a field name is split at. */
  predicate IsSeparator(c: char)
  {
    c == '.' || c == '_' || c == '@'
  }

  predicate IsLower(c: char) { 'a' <= c <= 'z' }

  predicate NoSeparator(w: string)
  {
    forall i :: 0 <= i < |w| ==> !IsSeparator(w[i])
  }

  predicate NoLower(w: string)
  {
    forall i :: 0 <= i < |w| ==> !IsLower(w[i])
  }

  predicate IsLowerWord(w: string)
  {
    w != [] && forall i :: 0 <= i < |w| ==> IsLower(w[i])
  }
  predicate IsUpper(c: char) { 'A' <= c <= 'Z' }

  function ToUpper(c: char): char
  {
    if IsLower(c) then (c as int - 32) as char else c
  }

  function ToLower(c: char): char
  {
    if IsUpper(c) then (c as int + 32) as char else c
  }

  function Upper(s: string): (r: string)
    ensures |r| == |s|
    ensures forall i {:trigger r[i]} :: 0 <= i < |s| ==> r[i] == ToUpper(s[i])
  {
    if s == [] then [] else [ToUpper(s[0])] + Upper(s[1..])
  }

  function Lower(s: string): (r: string)
    ensures |r| == |s|
    ensures forall i {:trigger r[i]} :: 0 <= i < |s| ==> r[i] == ToLower(s[i])
  {
    if s == [] then [] else [ToLower(s[0])] + Lower(s[1..])
  }

  /** The words strings.Title treats as such are separated by any character that is
      not a letter, a digit or '_'. */
  predicate IsTitleBoundary(c: char)
  {
    !(IsLower(c) || IsUpper(c) || '0' <= c <= '9' || c == '_')
  }

  /** strings.Title over ASCII: upper-case every character that follows a word
      boundary (the start of the string counts as one) and keep all others. */
  function Title(s: string): (r: string)
    ensures |r| == |s|
    ensures forall i {:trigger r[i]} :: 0 <= i < |s| ==>
              r[i] == if i == 0 || IsTitleBoundary(s[i - 1]) then ToUpper(s[i]) else s[i]
    ensures Lower(r) == Lower(s)
  {
    TitleAfter(' ', s)
  }

  /** strings.Title of `s` when the character before it is `prev`. */
  function TitleAfter(prev: char, s: string): (r: string)
    ensures |r| == |s|
    ensures forall i {:trigger r[i]} :: 0 <= i < |s| ==>
              r[i] == if IsTitleBoundary(if i == 0 then prev else s[i - 1]) then ToUpper(s[i]) else s[i]
    ensures Lower(r) == Lower(s)
    decreases s
  {
    if s == [] then []
    else
      LowerOfUpper(s[0]);
      var rest := TitleAfter(s[0], s[1..]);
      assert forall i :: 1 <= i < |s| ==> s[1..][i - 1] == s[i];
      [if IsTitleBoundary(prev) then ToUpper(s[0]) else s[0]] + rest
  }

  /** The abbreviations rendered fully upper-case. */
  const Abbreviated: set<string> :=
    {"id", "ppid", "pid", "mac", "ip", "iana", "uid", "ecs", "url", "os",
     "http", "dns", "ssl", "tls", "ttl", "uuid"}

  /** abbreviations: a word whose lower-case form is a known abbreviation is
      upper-cased; any other word is returned unchanged. */
  function Abbreviations(w: string): (r: string)
    ensures Lower(w) in Abbreviated ==> NoLower(r)
    ensures Lower(w) !in Abbreviated ==> r == w
    ensures Lower(r) == Lower(w) && |r| == |w|
  {
    if Lower(w) in Abbreviated then
      assert forall i :: 0 <= i < |w| ==> ToLower(ToUpper(w[i])) == ToLower(w[i]);
      Upper(w)
    else w
  }

  /** Length of the run of non-separators at the start of `s`. */
  function RunLength(s: string): (n: nat)
    ensures n <= |s|
    ensures forall i :: 0 <= i < n ==> !IsSeparator(s[i])
    ensures n < |s| ==> IsSeparator(s[n])
  {
    if s == [] || IsSeparator(s[0]) then 0 else 1 + RunLength(s[1..])
  }

  /** strings.FieldsFunc(s, isSeparator): the maximal runs of non-separators, in
      order; separators and empty words are dropped. */
  function Words(s: string): (ws: seq<string>)
    ensures forall i :: 0 <= i < |ws| ==> ws[i] != "" && NoSeparator(ws[i])
    ensures Concat(ws) == Strip(s)
    ensures s != [] && NoSeparator(s) ==> ws == [s]
    decreases |s|
  {
    if s == [] then []
    else if IsSeparator(s[0]) then Words(s[1..])
    else
      var n := RunLength(s);
      StripRun(s, n);
      assert NoSeparator(s) ==> n == |s| && s[..n] == s && s[n..] == [];
      [s[..n]] + Words(s[n..])
  }

  /** `s` without its separators. */
  function Strip(s: string): (r: string)
    ensures NoSeparator(r)
  {
    if s == [] then []
    else
      var rest := Strip(s[1..]);
      if IsSeparator(s[0]) then rest
      else
        assert forall i :: 1 <= i < |rest| + 1 ==> ([s[0]] + rest)[i] == rest[i - 1];
        [s[0]] + rest
  }

  function Concat(ws: seq<string>): string
  {
    if ws == [] then [] else ws[0] + Concat(ws[1..])
  }

  /** goTypeName: the words of the name, each abbreviated and title-cased,
      concatenated. The identifier has no separator left and, apart from letter
      case, is the name with its separators removed. */
  function GoTypeName(name: string): (r: string)
    ensures NoSeparator(r)
    ensures Lower(r) == Lower(Strip(name))
  {
    var r := Capitalize(Words(name));
    SameLettersNoSeparator(r, Strip(name));
    r
  }

  /** Each word abbreviated and title-cased, concatenated: only letter case
      changes. */
  function Capitalize(ws: seq<string>): (r: string)
    ensures Lower(r) == Lower(Concat(ws))
  {
    if ws == [] then ""
    else
      var t := Title(Abbreviations(ws[0]));
      var rest := Capitalize(ws[1..]);
      LowerAppend(t, rest);
      LowerAppend(ws[0], Concat(ws[1..]));
      t + rest
  }

  /** Strings that agree apart from letter case have their separators in the
      same places. */
  lemma SameLettersNoSeparator(a: string, b: string)
    requires Lower(a) == Lower(b) && NoSeparator(b)
    ensures NoSeparator(a)
  {
    forall j | 0 <= j < |a|
      ensures !IsSeparator(a[j])
    {
      assert Lower(a)[j] == Lower(b)[j];
    }
  }

  lemma {:induction false} StripRun(s: string, n: nat)
    requires n <= |s|
    requires forall i :: 0 <= i < n ==> !IsSeparator(s[i])
    ensures Strip(s) == s[..n] + Strip(s[n..])
  {
    if n > 0 {
      StripRun(s[1..], n - 1);
      assert s[1..][..n - 1] == s[1..n];
      assert s[1..][n - 1..] == s[n..];
      assert s[..n] == [s[0]] + s[1..n];
    }
  }

  lemma {:induction false} StripAppend(a: string, b: string)
    ensures Strip(a + b) == Strip(a) + Strip(b)
  {
    if a != [] {
      assert (a + b)[0] == a[0];
      assert (a + b)[1..] == a[1..] + b;
      StripAppend(a[1..], b);
    } else {
      assert a + b == b;
    }
  }

  lemma {:induction false} CapitalizeAppend(xs: seq<string>, ys: seq<string>)
    ensures Capitalize(xs + ys) == Capitalize(xs) + Capitalize(ys)
  {
    if xs != [] {
      var t := Title(Abbreviations(xs[0]));
      assert (xs + ys)[0] == xs[0];
      assert (xs + ys)[1..] == xs[1..] + ys;
      calc {
        Capitalize(xs + ys);
        t + Capitalize(xs[1..] + ys);
        { CapitalizeAppend(xs[1..], ys); }
        t + (Capitalize(xs[1..]) + Capitalize(ys));
        (t + Capitalize(xs[1..])) + Capitalize(ys);
      }
    } else {
      assert xs + ys == ys;
    }
  }

  lemma {:induction false} RunLengthStopsAtSeparator(a: string, c: char, b: string)
    requires IsSeparator(c)
    ensures RunLength(a + [c] + b) == RunLength(a)
  {
    if a == [] {
    } else if !IsSeparator(a[0]) {
      assert (a + [c] + b)[1..] == a[1..] + [c] + b;
      RunLengthStopsAtSeparator(a[1..], c, b);
    }
  }

  /** FieldsFunc drops a separator: the words of `a + sep + b` are those of `a`
      followed by those of `b`. */
  lemma {:induction false} WordsSplit(a: string, c: char, b: string)
    requires IsSeparator(c)
    ensures Words(a + [c] + b) == Words(a) + Words(b)
    decreases |a|
  {
    var s := a + [c] + b;
    if a == [] {
      assert s[1..] == b;
    } else if IsSeparator(a[0]) {
      assert s[1..] == a[1..] + [c] + b;
      WordsSplit(a[1..], c, b);
    } else {
      var n := RunLength(s);
      RunLengthStopsAtSeparator(a, c, b);
      assert s[..n] == a[..n];
      assert s[n..] == a[n..] + [c] + b;
      WordsSplit(a[n..], c, b);
    }
  }

  /** goTypeName distributes over a separator. */
  lemma GoTypeNameSplit(a: string, c: char, b: string)
    requires IsSeparator(c)
    ensures GoTypeName(a + [c] + b) == GoTypeName(a) + GoTypeName(b)
  {
    WordsSplit(a, c, b);
    CapitalizeAppend(Words(a), Words(b));
  }

  lemma LowerOfUpper(c: char)
    ensures ToLower(ToUpper(c)) == ToLower(c)
  {
  }

  lemma LowerAppend(a: string, b: string)
    ensures Lower(a + b) == Lower(a) + Lower(b)
  {
  }

  lemma {:induction false} StripOnlySeparators(s: string)
    requires forall i :: 0 <= i < |s| ==> IsSeparator(s[i])
    ensures Strip(s) == ""
  {
    if s != [] {
      StripOnlySeparators(s[1..]);
    }
  }

  /** A name made of separators only (or empty) yields the empty identifier. */
  lemma GoTypeNameOfSeparators(s: string)
    requires forall i :: 0 <= i < |s| ==> IsSeparator(s[i])
    ensures GoTypeName(s) == ""
  {
    StripOnlySeparators(s);
  }

  /** A single word is abbreviated and title-cased. */
  lemma GoTypeNameOfWord(w: string)
    requires w != [] && NoSeparator(w)
    ensures GoTypeName(w) == Title(Abbreviations(w))
  {
    assert Words(w) == [w];
    assert Capitalize([w]) == Title(Abbreviations(w)) + Capitalize([]);
  }

  predicate IsLetters(w: string)
  {
    forall i :: 0 <= i < |w| ==> IsLower(w[i]) || IsUpper(w[i])
  }

  lemma {:induction false} TitleAfterLetter(prev: char, w: string)
    requires !IsTitleBoundary(prev) && IsLetters(w)
    ensures TitleAfter(prev, w) == w
    decreases w
  {
    if w != [] {
      TitleAfterLetter(w[0], w[1..]);
    }
  }

  /** A word of letters gets its first letter upper-cased and keeps the rest. */
  lemma TitleOfLetters(w: string)
    requires w != [] && IsLetters(w)
    ensures Title(w) == [ToUpper(w[0])] + w[1..]
  {
    TitleAfterLetter(w[0], w[1..]);
  }

  lemma LowerOfLowerWord(w: string)
    requires IsLowerWord(w)
    ensures Lower(w) == w
  {
  }

  /** A lower-case word that is not an abbreviation is only title-cased. */
  lemma GoTypeNameOfPlainWord(w: string)
    requires IsLowerWord(w)
    requires w !in Abbreviated
    ensures GoTypeName(w) == [ToUpper(w[0])] + w[1..]
  {
    assert NoSeparator(w);
    LowerOfLowerWord(w);
    GoTypeNameOfWord(w);
    TitleOfLetters(w);
  }

  /** A lower-case abbreviation is fully upper-cased. */
  lemma GoTypeNameOfAbbreviation(w: string)
    requires IsLowerWord(w)
    requires w in Abbreviated
    ensures GoTypeName(w) == Upper(w)
  {
    assert NoSeparator(w);
    calc {
      GoTypeName(w);
      { GoTypeNameOfWord(w); }
      Title(Abbreviations(w));
      { AbbreviationOfLowerWord(w); }
      Title(Upper(w));
      { UpperIsTitled(w); }
      Upper(w);
    }
  }

  lemma AbbreviationOfLowerWord(w: string)
    requires IsLowerWord(w)
    requires w in Abbreviated
    ensures Abbreviations(w) == Upper(w)
  {
    LowerOfLowerWord(w);
  }

  lemma UpperIsTitled(w: string)
    requires IsLowerWord(w)
    ensures Title(Upper(w)) == Upper(w)
  {
    var u := Upper(w);
    assert IsLetters(u);
    TitleOfLetters(u);
    assert [ToUpper(u[0])] + u[1..] == u;
  }

  /** Two lower-case words around a separator, the second one an abbreviation. */
  lemma GoTypeNameWordAbbreviation(a: string, c: char, b: string)
    requires IsLowerWord(a) && a !in Abbreviated
    requires IsLowerWord(b) && b in Abbreviated
    requires IsSeparator(c)
    ensures GoTypeName(a + [c] + b) == [ToUpper(a[0])] + a[1..] + Upper(b)
  {
    GoTypeNameSplit(a, c, b);
    GoTypeNameOfPlainWord(a);
    GoTypeNameOfAbbreviation(b);
  }

  /** Two lower-case words around a separator, neither an abbreviation. */
  lemma GoTypeNameTwoWords(a: string, c: char, b: string)
    requires IsLowerWord(a) && a !in Abbreviated
    requires IsLowerWord(b) && b !in Abbreviated
    requires IsSeparator(c)
    ensures GoTypeName(a + [c] + b) == [ToUpper(a[0])] + a[1..] + [ToUpper(b[0])] + b[1..]
  {
    var x, y := [ToUpper(a[0])] + a[1..], [ToUpper(b[0])] + b[1..];
    GoTypeNameSplit(a, c, b);
    GoTypeNameOfPlainWord(a);
    GoTypeNameOfPlainWord(b);
    assert GoTypeName(a + [c] + b) == x + y;
  }

  /** Facts about the literal words used in the examples below. */
  lemma ExampleWords()
    ensures IsLowerWord("ephemeral") && "ephemeral" !in Abbreviated
    ensures IsLowerWord("instance") && "instance" !in Abbreviated
    ensures IsLowerWord("name") && "name" !in Abbreviated
    ensures IsLowerWord("host") && "host" !in Abbreviated
    ensures IsLowerWord("id") && "id" in Abbreviated
    ensures IsLowerWord("ip") && "ip" in Abbreviated
    ensures [ToUpper('e')] + "ephemeral"[1..] + Upper("id") == "EphemeralID"
    ensures [ToUpper('i')] + "instance"[1..] + [ToUpper('n')] + "name"[1..] == "InstanceName"
    ensures [ToUpper('h')] + "host"[1..] + Upper("ip") == "HostIP"
  {
  }

  /** The examples the source's comments name ("ephemeral_id", "instance.name"),
      and one with an abbreviation after a dot. */
  lemma GoTypeNameEphemeralID()
    ensures GoTypeName("ephemeral_id") == "EphemeralID"
  {
    ExampleWords();
    assert "ephemeral_id" == "ephemeral" + ['_'] + "id";
    GoTypeNameWordAbbreviation("ephemeral", '_', "id");
  }

  lemma GoTypeNameInstanceName()
    ensures GoTypeName("instance.name") == "InstanceName"
  {
    ExampleWords();
    assert "instance.name" == "instance" + ['.'] + "name";
    GoTypeNameTwoWords("instance", '.', "name");
  }

  lemma GoTypeNameHostIP()
    ensures GoTypeName("host.ip") == "HostIP"
  {
    ExampleWords();
    assert "host.ip" == "host" + ['.'] + "ip";
    GoTypeNameWordAbbreviation("host", '.', "ip");
  }
}
