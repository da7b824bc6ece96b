/** Key and file-name normalisation: `toLowerCase()` and `replace(/\s+/g, '_')`
    restricted to ASCII text. */
module Naming {

  predicate IsAscii(s: string) {
    forall i :: 0 <= i < |s| ==> s[i] as int < 128
  }

  /** The ASCII members of JavaScript's `\s` class: space, tab, line feed,
      vertical tab, form feed and carriage return. */
  predicate IsSpace(c: char) {
    c == ' ' || c == '\t' || c == '\n' || c == '\U{000B}' || c == '\U{000C}' || c == '\r'
  }

  predicate IsUpper(c: char) {
    'A' <= c <= 'Z'
  }

  predicate NoSpace(s: string) {
    forall i :: 0 <= i < |s| ==> !IsSpace(s[i])
  }

  predicate NoUpper(s: string) {
    forall i :: 0 <= i < |s| ==> !IsUpper(s[i])
  }

  function LowerChar(c: char): char {
    if IsUpper(c) then (c as int + 32) as char else c
  }

  /** ASCII `toLowerCase`: every upper-case letter is replaced by its lower-case
      form, and nothing else changes. */
  function Lower(s: string): (r: string)
    ensures |r| == |s|
    ensures NoUpper(r)
    ensures forall i :: 0 <= i < |s| && IsUpper(s[i]) ==> r[i] as int == s[i] as int + 32
    ensures forall i :: 0 <= i < |s| && !IsUpper(s[i]) ==> r[i] == s[i]
  {
    seq(|s|, i requires 0 <= i < |s| => LowerChar(s[i]))
  }

  /** The longest suffix of `s` that does not start with whitespace. */
  function DropSpaces(s: string): (r: string)
    ensures |r| <= |s| && r == s[|s| - |r|..]
    ensures r == [] || !IsSpace(r[0])
    ensures forall i :: 0 <= i < |s| - |r| ==> IsSpace(s[i])
  {
    if s != [] && IsSpace(s[0]) then DropSpaces(s[1..]) else s
  }

  /** `replace(/\s+/g, '_')`: every maximal run of whitespace becomes one `_`. */
  function CollapseSpaces(s: string): (r: string)
    ensures NoSpace(r)
    ensures |r| <= |s|
    ensures r == [] <==> s == []
    decreases |s|
  {
    if s == [] then []
    else if IsSpace(s[0]) then "_" + CollapseSpaces(DropSpaces(s))
    else [s[0]] + CollapseSpaces(s[1..])
  }

  /** A single left-to-right scan, the way a global regular-expression
      replacement walks the text: the first whitespace character of a run
      emits `_`, the rest of the run emits nothing.  It agrees with the
      recursive definition on every input. */
  method ScanCollapse(s: string) returns (out: string)
    ensures out == CollapseSpaces(s)
  {
    out := [];
    var inRun := false;
    var i := 0;
    while i < |s|
      invariant 0 <= i <= |s|
      invariant inRun ==> i > 0 && out + CollapseSpaces(DropSpaces(s[i..])) == CollapseSpaces(s)
      invariant !inRun ==> out + CollapseSpaces(s[i..]) == CollapseSpaces(s)
    {
      var t := s[i..];
      assert t[0] == s[i] && t[1..] == s[i + 1..] && t == [s[i]] + s[i + 1..];
      DropCons(s[i], s[i + 1..]);
      if IsSpace(s[i]) {
        SpaceLead(t);
        if !inRun {
          Regroup(out, "_", CollapseSpaces(DropSpaces(s[i + 1..])));
          out := out + "_";
          inRun := true;
        }
      } else {
        CollapseCons(s[i], s[i + 1..]);
        Regroup(out, [s[i]], CollapseSpaces(s[i + 1..]));
        out := out + [s[i]];
        inRun := false;
      }
      i := i + 1;
    }
    if inRun {
      assert s[i..] == [];
    }
  }

  /** `s` with whitespace and `_` removed: the content the collapse keeps. */
  function Content(s: string): string {
    if s == [] then []
    else if IsSpace(s[0]) || s[0] == '_' then Content(s[1..])
    else [s[0]] + Content(s[1..])
  }

  /** Upload file names keep their case and lose their whitespace runs
      (server.js line 71). */
  function UploadName(original: string): (r: string)
    requires IsAscii(original)
    ensures r == CollapseSpaces(original)
    ensures NoSpace(r)
    ensures |r| <= |original|
    ensures NoSpace(original) ==> r == original
    ensures Content(r) == Content(original)
  {
    CollapseProperties(original);
    CollapseSpaces(original)
  }

  /** Subject keys: lower-cased, with whitespace runs collapsed (server.js lines
      650 and 777). */
  function SubjectKey(code: string): (r: string)
    requires IsAscii(code)
    ensures r == CollapseSpaces(Lower(code))
    ensures NoSpace(r) && NoUpper(r)
    ensures |r| <= |code|
    ensures Content(r) == Content(Lower(code))
  {
    CollapseProperties(Lower(code));
    CollapseKeepsNoUpper(Lower(code));
    CollapseSpaces(Lower(code))
  }

  lemma {:induction false} ContentAppend(a: string, b: string)
    ensures Content(a + b) == Content(a) + Content(b)
    decreases |a|
  {
    if a == [] {
      assert a + b == b;
    } else {
      assert (a + b)[0] == a[0];
      assert (a + b)[1..] == a[1..] + b;
      ContentAppend(a[1..], b);
    }
  }

  lemma {:induction false} ContentOfSpaces(s: string)
    requires forall i :: 0 <= i < |s| ==> IsSpace(s[i])
    ensures Content(s) == []
    decreases |s|
  {
    if s != [] {
      ContentOfSpaces(s[1..]);
    }
  }

  /** The collapse removes all whitespace, never lengthens its input, is the
      identity on whitespace-free text and keeps every other character in order. */
  lemma {:induction false} CollapseProperties(s: string)
    ensures NoSpace(CollapseSpaces(s))
    ensures |CollapseSpaces(s)| <= |s|
    ensures NoSpace(s) ==> CollapseSpaces(s) == s
    ensures Content(CollapseSpaces(s)) == Content(s)
  {
    if NoSpace(s) {
      CollapseIdentity(s);
    }
    CollapseKeepsContent(s);
  }

  lemma {:induction false} CollapseIdentity(s: string)
    requires NoSpace(s)
    ensures CollapseSpaces(s) == s
    decreases |s|
  {
    if s != [] {
      assert !IsSpace(s[0]);
      CollapseIdentity(s[1..]);
      assert s == [s[0]] + s[1..];
    }
  }

  lemma {:induction false} CollapseKeepsContent(s: string)
    ensures Content(CollapseSpaces(s)) == Content(s)
    decreases |s|
  {
    if s == [] {
    } else if IsSpace(s[0]) {
      var rest := DropSpaces(s);
      CollapseKeepsContent(rest);
      var r := CollapseSpaces(rest);
      ContentAppend("_", r);
      var lead := s[..|s| - |rest|];
      assert s == lead + rest;
      ContentAppend(lead, rest);
      ContentOfSpaces(lead);
    } else {
      CollapseKeepsContent(s[1..]);
      var r := CollapseSpaces(s[1..]);
      ContentAppend([s[0]], r);
      assert s == [s[0]] + s[1..];
      ContentAppend([s[0]], s[1..]);
    }
  }

  lemma {:induction false} CollapseKeepsNoUpper(s: string)
    requires NoUpper(s)
    ensures NoUpper(CollapseSpaces(s))
    decreases |s|
  {
    if s == [] {
    } else if IsSpace(s[0]) {
      CollapseKeepsNoUpper(DropSpaces(s));
    } else {
      CollapseKeepsNoUpper(s[1..]);
    }
  }

  /** Normalising an already normalised key changes nothing. */
  lemma SubjectKeyIdempotent(code: string)
    requires IsAscii(code)
    ensures IsAscii(SubjectKey(code))
    ensures SubjectKey(SubjectKey(code)) == SubjectKey(code)
  {
    var k := SubjectKey(code);
    CollapseKeepsAscii(Lower(code));
    assert Lower(k) == k;
    CollapseProperties(k);
  }

  /** Normalising an already normalised file name changes nothing. */
  lemma UploadNameIdempotent(original: string)
    requires IsAscii(original)
    ensures IsAscii(UploadName(original))
    ensures UploadName(UploadName(original)) == UploadName(original)
  {
    CollapseKeepsAscii(original);
    CollapseProperties(UploadName(original));
  }

  lemma {:induction false} CollapseKeepsAscii(s: string)
    requires IsAscii(s)
    ensures IsAscii(CollapseSpaces(s))
    decreases |s|
  {
    if s == [] {
    } else if IsSpace(s[0]) {
      CollapseKeepsAscii(DropSpaces(s));
    } else {
      CollapseKeepsAscii(s[1..]);
    }
  }

  predicate AllSpace(s: string) {
    forall i :: 0 <= i < |s| ==> IsSpace(s[i])
  }

  /** No whitespace run straddles the seam between `a` and `b`. */
  predicate Seam(a: string, b: string) {
    a == [] || b == [] || !IsSpace(a[|a| - 1]) || !IsSpace(b[0])
  }

  /** A whole run of whitespace becomes exactly one `_`. */
  lemma RunBecomesUnderscore(w: string)
    requires w != [] && AllSpace(w)
    ensures CollapseSpaces(w) == "_"
  {
  }

  /** Leading whitespace of `a + b` is that of `a`, continued into `b` only
      when `a` is whitespace throughout. */
  lemma {:induction false} DropSpacesAppend(a: string, b: string)
    ensures DropSpaces(a) != [] ==> DropSpaces(a + b) == DropSpaces(a) + b
    ensures DropSpaces(a) == [] ==> DropSpaces(a + b) == DropSpaces(b)
    decreases |a|
  {
    if a == [] {
      assert a + b == b;
    } else {
      var c, t := a[0], a[1..];
      assert a == [c] + t;
      Regroup([c], t, b);
      DropSpacesAppend(t, b);
      DropCons(c, t);
      DropCons(c, t + b);
    }
  }

  lemma DropCons(c: char, t: string)
    ensures IsSpace(c) ==> DropSpaces([c] + t) == DropSpaces(t)
    ensures !IsSpace(c) ==> DropSpaces([c] + t) == [c] + t
  {
    assert ([c] + t)[0] == c && ([c] + t)[1..] == t;
  }

  lemma Regroup(x: string, y: string, z: string)
    ensures x + (y + z) == (x + y) + z
  {
  }

  /** The collapse works run by run: text cut where no whitespace run is
      split collapses piecewise. */
  lemma {:induction false} CollapseAppend(a: string, b: string)
    requires Seam(a, b)
    ensures CollapseSpaces(a + b) == CollapseSpaces(a) + CollapseSpaces(b)
    decreases |a|
  {
    if a == [] {
      assert a + b == b;
    } else if !IsSpace(a[0]) {
      var c, t := a[0], a[1..];
      assert a == [c] + t;
      SeamSuffix(a, t, b);
      CollapseAppend(t, b);
      AppendAtChar(c, t, b);
    } else {
      var rest := DropSpaces(a);
      if rest != [] {
        SeamSuffix(a, rest, b);
        CollapseAppend(rest, b);
      }
      AppendAtSpace(a, b);
    }
  }

  /** A seam that no run straddles stays so when the left text is cut
      down to one of its suffixes. */
  lemma SeamSuffix(a: string, t: string, b: string)
    requires Seam(a, b) && |t| <= |a| && t == a[|a| - |t|..]
    ensures Seam(t, b)
  {
    if t != [] {
      assert t[|t| - 1] == a[|a| - 1];
    }
  }

  /** The inductive step of `CollapseAppend` at a non-whitespace character. */
  lemma AppendAtChar(c: char, t: string, b: string)
    requires !IsSpace(c)
    requires CollapseSpaces(t + b) == CollapseSpaces(t) + CollapseSpaces(b)
    ensures CollapseSpaces([c] + t + b) == CollapseSpaces([c] + t) + CollapseSpaces(b)
  {
    var x, y := CollapseSpaces(t), CollapseSpaces(b);
    Regroup([c], t, b);
    CollapseCons(c, t + b);
    CollapseCons(c, t);
    Regroup([c], x, y);
  }

  lemma CollapseCons(c: char, t: string)
    requires !IsSpace(c)
    ensures CollapseSpaces([c] + t) == [c] + CollapseSpaces(t)
  {
    assert ([c] + t)[0] == c && ([c] + t)[1..] == t;
  }

  /** The inductive step of `CollapseAppend` at a whitespace run. */
  lemma AppendAtSpace(a: string, b: string)
    requires a != [] && IsSpace(a[0]) && Seam(a, b)
    requires DropSpaces(a) != [] ==>
               CollapseSpaces(DropSpaces(a) + b) == CollapseSpaces(DropSpaces(a)) + CollapseSpaces(b)
    ensures CollapseSpaces(a + b) == CollapseSpaces(a) + CollapseSpaces(b)
  {
    assert (a + b)[0] == a[0];
    DropSpacesAppend(a, b);
    var rest := DropSpaces(a);
    SpaceLead(a);
    SpaceLead(a + b);
    if rest == [] {
      assert IsSpace(a[|a| - 1]);
      assert DropSpaces(b) == b;
      assert CollapseSpaces(a) == "_";
    } else {
      assert DropSpaces(a + b) == rest + b;
      Regroup("_", CollapseSpaces(rest), CollapseSpaces(b));
    }
  }

  /** The collapse of text that starts with whitespace. */
  lemma SpaceLead(t: string)
    requires t != [] && IsSpace(t[0])
    ensures CollapseSpaces(t) == "_" + CollapseSpaces(DropSpaces(t))
  {
  }

  /** Text in which a non-empty whitespace run sits between two pieces that
      do not touch it collapses to the pieces with one `_` between them. */
  lemma OneUnderscorePerRun(a: string, w: string, b: string)
    requires w != [] && AllSpace(w)
    requires a == [] || !IsSpace(a[|a| - 1])
    requires b == [] || !IsSpace(b[0])
    ensures CollapseSpaces(a + w + b) == CollapseSpaces(a) + "_" + CollapseSpaces(b)
  {
    RunBecomesUnderscore(w);
    CollapseAppend(w, b);
    Regroup(a, w, b);
    CollapseAppend(a, w + b);
    Regroup(CollapseSpaces(a), "_", CollapseSpaces(b));
  }

  /** A worked example: a file name with one space. */
  lemma UploadNameExample()
    ensures UploadName("my notes.pdf") == "my_notes.pdf"
  {
    SpaceBecomesUnderscore("my", "notes.pdf");
    assert "my" + " " + "notes.pdf" == "my notes.pdf";
    assert "my" + "_" + "notes.pdf" == "my_notes.pdf";
  }

  lemma SpaceBecomesUnderscore(a: string, b: string)
    requires NoSpace(a) && NoSpace(b)
    ensures CollapseSpaces(a + " " + b) == a + "_" + b
  {
    RunBetweenWords(a, " ", b);
  }

  lemma RunBetweenWords(a: string, w: string, b: string)
    requires NoSpace(a) && NoSpace(b) && w != [] && AllSpace(w)
    ensures CollapseSpaces(a + w + b) == a + "_" + b
  {
    OneUnderscorePerRun(a, w, b);
    CollapseIdentity(a);
    CollapseIdentity(b);
  }

  /** A worked example: a subject code with a mixed whitespace run. */
  lemma SubjectKeyExample()
    ensures SubjectKey("CS \t 101") == "cs_101"
  {
    var w := " \t ";
    assert Lower("CS \t 101") == "cs" + w + "101";
    RunBetweenWords("cs", w, "101");
    assert "cs" + "_" + "101" == "cs_101";
  }
}
