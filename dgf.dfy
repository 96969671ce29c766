/** The DGF text builder of the Python grid module: `CartesianDomain` writes
    an `INTERVAL` block (lower corner, upper corner, subdivision counts, each
    as one space-separated line) and a `GRIDPARAMETER` block with one
    `key value` line per parameter; `string2dgf` prefixes a given text with the
    `DGF` header.  Both hand back a pair of the reader kind and the text.

    Python's `str()` on the values is the parameter `str`; the keyword
    parameters are a sequence of (key, value) pairs in their iteration order. */
module Dgf {

  /** `reader.dgfString`: the text is DGF source itself. */
  datatype ReaderKind = DgfString

  /** A `CartesianDomain`: the tuple `(reader, text)` and its `dimgrid` attribute. */
  datatype CartesianDomain = CartesianDomain(reader: ReaderKind, text: string, dimgrid: nat)

  /** `" ".join([str(x) for x in xs])`. */
  function JoinWords<V>(xs: seq<V>, str: V -> string): string
    decreases |xs|
  {
    if |xs| == 0 then ""
    else if |xs| == 1 then str(xs[0])
    else JoinWords(xs[..|xs| - 1], str) + " " + str(xs[|xs| - 1])
  }

  /** The `key value` line of each parameter, in order. */
  function ParameterLines<V>(ps: seq<(string, V)>, str: V -> string): (r: seq<string>)
    ensures |r| == |ps|
    ensures forall k :: 0 <= k < |ps| ==> r[k] == ps[k].0 + " " + str(ps[k].1)
    decreases |ps|
  {
    if ps == [] then []
    else ParameterLines(ps[..|ps| - 1], str) + [ps[|ps| - 1].0 + " " + str(ps[|ps| - 1].1)]
  }

  /** The lines of the DGF text, without their terminating newlines. */
  function DgfLines<V>(lower: seq<V>, upper: seq<V>, division: seq<V>, ps: seq<(string, V)>, str: V -> string): (r: seq<string>)
    ensures |r| == 8 + |ps|
  {
    ["DGF", "INTERVAL", JoinWords(lower, str), JoinWords(upper, str), JoinWords(division, str), "#", "GRIDPARAMETER"]
    + ParameterLines(ps, str) + ["#"]
  }

  /** Each line followed by a newline. */
  function Unlines(ls: seq<string>): string
    decreases |ls|
  {
    if ls == [] then "" else ls[0] + "\n" + Unlines(ls[1..])
  }

  /** The text `CartesianDomain` builds. */
  function DgfText<V>(lower: seq<V>, upper: seq<V>, division: seq<V>, ps: seq<(string, V)>, str: V -> string): string
  {
    Unlines(DgfLines(lower, upper, division, ps, str))
  }

  /** Split a text into its newline-terminated lines (a last line without a
      newline is kept too). */
  function Lines(s: string): seq<string>
    decreases |s|
  {
    if s == "" then []
    else
      var rest := Lines(s[1..]);
      if s[0] == '\n' then [""] + rest
      else if rest == [] then [[s[0]]]
      else [[s[0]] + rest[0]] + rest[1..]
  }

  lemma {:induction false} UnlinesAppend(a: seq<string>, b: seq<string>)
    ensures Unlines(a + b) == Unlines(a) + Unlines(b)
    decreases |a|
  {
    if a == [] {
      assert a + b == b;
    } else {
      assert (a + b)[0] == a[0] && (a + b)[1..] == a[1..] + b;
      UnlinesAppend(a[1..], b);
    }
  }

  lemma UnlinesCons(l: string, rest: seq<string>)
    ensures Unlines([l] + rest) == l + "\n" + Unlines(rest)
  {
    assert ([l] + rest)[0] == l && ([l] + rest)[1..] == rest;
  }

  lemma UnlinesSingle(l: string)
    ensures Unlines([l]) == l + "\n"
  {
    assert [l][1..] == [];
    assert Unlines([]) == "";
    assert Unlines([l]) == l + "\n" + Unlines([]);
    assert l + "\n" + "" == l + "\n";
  }

  /** The interval part of the text: the header lines, the three interval
      lines, the closing `#` and the `GRIDPARAMETER` line. */
  function IntervalText<V>(lower: seq<V>, upper: seq<V>, division: seq<V>, str: V -> string): string
  {
    "DGF\n" + "INTERVAL\n" + JoinWords(lower, str) + "\n" + JoinWords(upper, str) + "\n"
    + JoinWords(division, str) + "\n" + "#\n" + "GRIDPARAMETER\n"
  }

  /** The seven lines before the parameters, joined. */
  lemma HeaderUnlines(a2: string, a3: string, a4: string)
    ensures Unlines(["DGF", "INTERVAL", a2, a3, a4, "#", "GRIDPARAMETER"])
      == "DGF\n" + "INTERVAL\n" + a2 + "\n" + a3 + "\n" + a4 + "\n" + "#\n" + "GRIDPARAMETER\n"
  {
    var l0, l1, l5, l6 := "DGF", "INTERVAL", "#", "GRIDPARAMETER";
    var u5 := Unlines([l5, l6]);
    var u4 := Unlines([a4, l5, l6]);
    var u3 := Unlines([a3, a4, l5, l6]);
    var u2 := Unlines([a2, a3, a4, l5, l6]);
    var u1 := Unlines([l1, a2, a3, a4, l5, l6]);
    var u0 := Unlines([l0, l1, a2, a3, a4, l5, l6]);
    assert u5 == l5 + "\n" + (l6 + "\n") by {
      UnlinesSingle(l6);
      UnlinesCons(l5, [l6]);
      assert [l5] + [l6] == [l5, l6];
    }
    assert u4 == a4 + "\n" + u5 by { UnlinesCons(a4, [l5, l6]); assert [a4] + [l5, l6] == [a4, l5, l6]; }
    assert u3 == a3 + "\n" + u4 by { UnlinesCons(a3, [a4, l5, l6]); assert [a3] + [a4, l5, l6] == [a3, a4, l5, l6]; }
    assert u2 == a2 + "\n" + u3 by {
      UnlinesCons(a2, [a3, a4, l5, l6]);
      assert [a2] + [a3, a4, l5, l6] == [a2, a3, a4, l5, l6];
    }
    assert u1 == l1 + "\n" + u2 by {
      UnlinesCons(l1, [a2, a3, a4, l5, l6]);
      assert [l1] + [a2, a3, a4, l5, l6] == [l1, a2, a3, a4, l5, l6];
    }
    assert u0 == l0 + "\n" + u1 by {
      UnlinesCons(l0, [l1, a2, a3, a4, l5, l6]);
      assert [l0] + [l1, a2, a3, a4, l5, l6] == [l0, l1, a2, a3, a4, l5, l6];
    }
    ConcatRegroup(l0 + "\n", l1 + "\n", a2 + "\n", a3 + "\n", a4 + "\n", l5 + "\n", l6 + "\n");
  }

  /** Regrouping a concatenation of seven strings. */
  lemma ConcatRegroup(s0: string, s1: string, s2: string, s3: string, s4: string, s5: string, s6: string)
    ensures s0 + (s1 + (s2 + (s3 + (s4 + (s5 + s6))))) == s0 + s1 + s2 + s3 + s4 + s5 + s6
  {
  }

  /** The text is the interval part, one `key value` line per parameter in
      order, and the closing `#`. */
  lemma TextParts<V>(lower: seq<V>, upper: seq<V>, division: seq<V>, ps: seq<(string, V)>, str: V -> string)
    ensures DgfText(lower, upper, division, ps, str)
      == IntervalText(lower, upper, division, str) + Unlines(ParameterLines(ps, str)) + "#\n"
  {
    var a2, a3, a4 := JoinWords(lower, str), JoinWords(upper, str), JoinWords(division, str);
    var header := ["DGF", "INTERVAL", a2, a3, a4, "#", "GRIDPARAMETER"];
    var pl := ParameterLines(ps, str);
    assert DgfLines(lower, upper, division, ps, str) == header + (pl + ["#"]);
    UnlinesAppend(header, pl + ["#"]);
    UnlinesAppend(pl, ["#"]);
    UnlinesSingle("#");
    HeaderUnlines(a2, a3, a4);
  }

  /** A line without a newline, then a newline, splits off as that line. */
  lemma {:induction false} LinesOfLine(a: string, b: string)
    requires '\n' !in a
    ensures Lines(a + "\n" + b) == [a] + Lines(b)
    decreases |a|
  {
    if a == "" {
      assert a + "\n" + b == ['\n'] + b;
      assert (['\n'] + b)[1..] == b;
    } else {
      var s := a + "\n" + b;
      assert s[0] == a[0] && s[1..] == a[1..] + "\n" + b;
      LinesOfLine(a[1..], b);
      assert [a[0]] + a[1..] == a;
    }
  }

  /** Splitting undoes joining, for lines without newlines. */
  lemma {:induction false} LinesOfUnlines(ls: seq<string>)
    requires forall k :: 0 <= k < |ls| ==> '\n' !in ls[k]
    ensures Lines(Unlines(ls)) == ls
    decreases |ls|
  {
    if ls != [] {
      LinesOfLine(ls[0], Unlines(ls[1..]));
      LinesOfUnlines(ls[1..]);
    }
  }

  lemma {:induction false} JoinWordsNoNewline<V>(xs: seq<V>, str: V -> string)
    requires forall k :: 0 <= k < |xs| ==> '\n' !in str(xs[k])
    ensures '\n' !in JoinWords(xs, str)
    decreases |xs|
  {
    if |xs| > 1 {
      JoinWordsNoNewline(xs[..|xs| - 1], str);
    }
  }

  /** No printed value and no key contains a newline. */
  ghost predicate SingleLine<V>(lower: seq<V>, upper: seq<V>, division: seq<V>, ps: seq<(string, V)>, str: V -> string)
  {
    && (forall k :: 0 <= k < |lower| ==> '\n' !in str(lower[k]))
    && (forall k :: 0 <= k < |upper| ==> '\n' !in str(upper[k]))
    && (forall k :: 0 <= k < |division| ==> '\n' !in str(division[k]))
    && (forall k :: 0 <= k < |ps| ==> '\n' !in ps[k].0 && '\n' !in str(ps[k].1))
  }

  /** The text is line-structured: read back line by line it gives the
      header, the three interval lines, the parameter block with one line per
      parameter in order, and the closing `#`. */
  lemma TextLines<V>(lower: seq<V>, upper: seq<V>, division: seq<V>, ps: seq<(string, V)>, str: V -> string)
    requires SingleLine(lower, upper, division, ps, str)
    ensures Lines(DgfText(lower, upper, division, ps, str)) == DgfLines(lower, upper, division, ps, str)
  {
    JoinWordsNoNewline(lower, str);
    JoinWordsNoNewline(upper, str);
    JoinWordsNoNewline(division, str);
    var ls := DgfLines(lower, upper, division, ps, str);
    forall k | 0 <= k < |ls| ensures '\n' !in ls[k] {
      if 7 <= k < 7 + |ps| {
        var line := ps[k - 7].0 + " " + str(ps[k - 7].1);
        assert ls[k] == line;
        forall j | 0 <= j < |line| ensures line[j] != '\n' {
          if j < |ps[k - 7].0| { assert line[j] == ps[k - 7].0[j]; }
          else if j > |ps[k - 7].0| { assert line[j] == str(ps[k - 7].1)[j - |ps[k - 7].0| - 1]; }
        }
      }
    }
    LinesOfUnlines(ls);
  }

  /** The text starts with the `DGF` and `INTERVAL` header lines and ends with `#`. */
  lemma TextFrame<V>(lower: seq<V>, upper: seq<V>, division: seq<V>, ps: seq<(string, V)>, str: V -> string)
    ensures var t := DgfText(lower, upper, division, ps, str);
      |t| >= 15 && t[..13] == "DGF\nINTERVAL\n" && t[|t| - 2..] == "#\n"
  {
    var ls := DgfLines(lower, upper, division, ps, str);
    var n := |ls|;
    UnlinesAppend(ls[..2], ls[2..]);
    assert ls[..2] + ls[2..] == ls;
    assert Unlines(ls[..2]) == "DGF\nINTERVAL\n";
    UnlinesAppend(ls[..n - 1], [ls[n - 1]]);
    assert ls[..n - 1] + [ls[n - 1]] == ls;
    assert Unlines([ls[n - 1]]) == "#\n";
  }

  /** With no parameters the `GRIDPARAMETER` line of the interval part is
      directly followed by the closing `#`. */
  lemma EmptyParameterBlock<V>(lower: seq<V>, upper: seq<V>, division: seq<V>, str: V -> string)
    ensures DgfText(lower, upper, division, [], str) == IntervalText(lower, upper, division, str) + "#\n"
  {
    TextParts(lower, upper, division, [], str);
    assert ParameterLines<V>([], str) == [];
    assert IntervalText(lower, upper, division, str) + "" == IntervalText(lower, upper, division, str);
  }

  /** `CartesianDomain(lower, upper, division, **parameters)`: build the text
      by successive appends, then record `dimgrid = len(lower)`. */
  method NewCartesianDomain<V>(lower: seq<V>, upper: seq<V>, division: seq<V>, parameters: seq<(string, V)>, str: V -> string)
    returns (d: CartesianDomain)
    ensures d.reader == DgfString
    ensures d.text == DgfText(lower, upper, division, parameters, str)
    ensures d.dimgrid == |lower|
  {
    var dgf := "DGF\n";
    dgf := dgf + "INTERVAL\n";
    dgf := dgf + JoinWords(lower, str) + "\n";
    dgf := dgf + JoinWords(upper, str) + "\n";
    dgf := dgf + JoinWords(division, str) + "\n";
    dgf := dgf + "#\n";
    dgf := dgf + "GRIDPARAMETER\n";
    var i := 0;
    while i < |parameters|
      invariant 0 <= i <= |parameters|
      invariant dgf == IntervalText(lower, upper, division, str) + Unlines(ParameterLines(parameters[..i], str))
    {
      var key := parameters[i].0;
      var line := key + " " + str(parameters[i].1);
      assert parameters[..i + 1][..i] == parameters[..i];
      assert ParameterLines(parameters[..i + 1], str) == ParameterLines(parameters[..i], str) + [line];
      UnlinesAppend(ParameterLines(parameters[..i], str), [line]);
      UnlinesSingle(line);
      dgf := dgf + key + " " + str(parameters[i].1) + "\n";
      i := i + 1;
    }
    assert parameters[..i] == parameters;
    dgf := dgf + "#\n";
    TextParts(lower, upper, division, parameters, str);
    d := CartesianDomain(DgfString, dgf, |lower|);
  }

  /** `cartesianDomain(...)`: the same as constructing a `CartesianDomain`. */
  method MakeCartesianDomain<V>(lower: seq<V>, upper: seq<V>, division: seq<V>, parameters: seq<(string, V)>, str: V -> string)
    returns (d: CartesianDomain)
    ensures d == CartesianDomain(DgfString, DgfText(lower, upper, division, parameters, str), |lower|)
  {
    d := NewCartesianDomain(lower, upper, division, parameters, str);
  }

  /** `string2dgf(s)`: the pair of the reader kind and `s` behind a `DGF` header line. */
  function String2Dgf(s: string): (r: (ReaderKind, string))
    ensures r.0 == DgfString && |r.1| == |s| + 4 && r.1[..4] == "DGF\n" && r.1[4..] == s
  {
    (DgfString, "DGF\n" + s)
  }

  /** A domain's tuple is what `string2dgf` gives for its text without the header line. */
  lemma DomainIsString2Dgf<V>(lower: seq<V>, upper: seq<V>, division: seq<V>, ps: seq<(string, V)>, str: V -> string)
    ensures var t := DgfText(lower, upper, division, ps, str);
      String2Dgf(t[4..]) == (DgfString, t)
  {
    TextFrame(lower, upper, division, ps, str);
    var t := DgfText(lower, upper, division, ps, str);
    assert t[..4] == "DGF\n";
    assert t[..4] + t[4..] == t;
  }
}
