/**
  String helpers used by the mapping inference: Python's `str.split`,
  `str.join`, `str.upper` and `str.capitalize`, restricted to ASCII letters.
 */
module Text {

  /** `sep.join(parts)`. */
  function Join(parts: seq<string>, sep: char): string
    decreases |parts|
  {
    if |parts| == 0 then ""
    else if |parts| == 1 then parts[0]
    else parts[0] + [sep] + Join(parts[1..], sep)
  }

  /** `s.split(sep)`: never empty, no part holds `sep`, and joining the parts gives `s` back. */
  function Split(s: string, sep: char): (parts: seq<string>)
    ensures |parts| >= 1
    ensures forall i :: 0 <= i < |parts| ==> sep !in parts[i]
    ensures Join(parts, sep) == s
    decreases |s|
  {
    if |s| == 0 then [""]
    else
      var rest := Split(s[1..], sep);
      if s[0] == sep then
        assert ([""] + rest)[1..] == rest;
        [""] + rest
      else
        var parts := [[s[0]] + rest[0]] + rest[1..];
        assert parts[1..] == rest[1..];
        assert |rest| > 1 ==> Join(rest, sep) == rest[0] + [sep] + Join(rest[1..], sep);
        assert s == [s[0]] + s[1..];
        parts
  }

  /** A word free of the separator splits to itself. */
  lemma {:induction false} SplitWord(w: string, sep: char)
    requires sep !in w
    ensures Split(w, sep) == [w]
    decreases |w|
  {
    if |w| > 0 {
      SplitWord(w[1..], sep);
      assert [w[0]] + w[1..] == w;
    }
  }

  /** Splitting `w + sep + t` peels off exactly the first word `w`. */
  lemma {:induction false} SplitFirst(w: string, sep: char, t: string)
    requires sep !in w
    ensures Split(w + [sep] + t, sep) == [w] + Split(t, sep)
    decreases |w|
  {
    var s := w + [sep] + t;
    if |w| == 0 {
      assert s[0] == sep && s[1..] == t;
    } else {
      assert s[1..] == w[1..] + [sep] + t;
      SplitFirst(w[1..], sep, t);
      assert [w[0]] + w[1..] == w;
    }
  }

  /** Round trip: splitting a join of separator-free words gives the words back. */
  lemma {:induction false} SplitJoin(parts: seq<string>, sep: char)
    requires |parts| >= 1
    requires forall i :: 0 <= i < |parts| ==> sep !in parts[i]
    ensures Split(Join(parts, sep), sep) == parts
    decreases |parts|
  {
    if |parts| == 1 {
      SplitWord(parts[0], sep);
    } else {
      SplitJoin(parts[1..], sep);
      SplitFirst(parts[0], sep, Join(parts[1..], sep));
      assert [parts[0]] + parts[1..] == parts;
    }
  }

  /** The ".join" of two names, as the config's `"table.column"` fields are written. */
  lemma DottedRoundTrip(table: string, column: string)
    requires '.' !in table && '.' !in column
    ensures Split(table + "." + column, '.') == [table, column]
  {
    SplitFirst(table, '.', column);
    SplitWord(column, '.');
  }

  /** A table name holding a dot does not survive the `"table.column"` encoding. */
  lemma DottedTableIsCut()
    ensures Split("db.t" + "." + "c", '.')[0] == "db"
  {
    SplitFirst("db", '.', "t.c");
    SplitFirst("t", '.', "c");
    assert "db.t" + "." + "c" == "db" + ['.'] + "t.c";
  }

  function UpperChar(c: char): (u: char)
    ensures 'a' <= c <= 'z' ==> 'A' <= u <= 'Z' && u as int == c as int - 32
    ensures !('a' <= c <= 'z') ==> u == c
  {
    if 'a' <= c <= 'z' then (c as int - 32) as char else c
  }

  function LowerChar(c: char): (l: char)
    ensures 'A' <= c <= 'Z' ==> 'a' <= l <= 'z' && l as int == c as int + 32
    ensures !('A' <= c <= 'Z') ==> l == c
  {
    if 'A' <= c <= 'Z' then (c as int + 32) as char else c
  }

  /** `s.upper()` on ASCII letters. */
  function Upper(s: string): (u: string)
    ensures |u| == |s| && forall i :: 0 <= i < |s| ==> u[i] == UpperChar(s[i])
  {
    seq(|s|, i requires 0 <= i < |s| => UpperChar(s[i]))
  }

  /** `s.lower()` on ASCII letters. */
  function Lower(s: string): (l: string)
    ensures |l| == |s| && forall i :: 0 <= i < |s| ==> l[i] == LowerChar(s[i])
  {
    seq(|s|, i requires 0 <= i < |s| => LowerChar(s[i]))
  }

  /** `w.capitalize()`: the first character upper-cased, the rest lower-cased. */
  function Capitalize(w: string): (c: string)
    ensures |c| == |w|
    ensures |w| > 0 ==> c[0] == UpperChar(w[0]) && c[1..] == Lower(w[1..])
  {
    if |w| == 0 then "" else [UpperChar(w[0])] + Lower(w[1..])
  }

  /** `''.join(word.capitalize() for word in words)`. */
  function CapitalizeAll(words: seq<string>): string
    decreases |words|
  {
    if |words| == 0 then "" else Capitalize(words[0]) + CapitalizeAll(words[1..])
  }

  /** The node label of a table: each `_`-separated word capitalized, the words concatenated. */
  function PascalCase(name: string): (pascal: string)
    ensures '_' !in pascal
  {
    CapitalizeAllFree(Split(name, '_'), '_');
    CapitalizeAll(Split(name, '_'))
  }

  /** `s` with every occurrence of `c` removed. */
  function Strip(s: string, c: char): (r: string)
    ensures c !in r
    decreases |s|
  {
    if |s| == 0 then "" else (if s[0] == c then "" else [s[0]]) + Strip(s[1..], c)
  }

  lemma {:induction false} StripConcat(a: string, b: string, c: char)
    ensures Strip(a + b, c) == Strip(a, c) + Strip(b, c)
    decreases |a|
  {
    if |a| > 0 {
      assert (a + b)[1..] == a[1..] + b;
      StripConcat(a[1..], b, c);
    } else {
      assert a + b == b;
    }
  }

  lemma {:induction false} StripAbsent(s: string, c: char)
    requires c !in s
    ensures Strip(s, c) == s
    decreases |s|
  {
    if |s| > 0 {
      StripAbsent(s[1..], c);
      assert [s[0]] + s[1..] == s;
    }
  }

  lemma LowerConcat(a: string, b: string)
    ensures Lower(a + b) == Lower(a) + Lower(b)
  {
  }

  lemma LowerCapitalize(w: string)
    ensures Lower(Capitalize(w)) == Lower(w)
  {
    if |w| > 0 {
      assert Lower(Capitalize(w))[0] == LowerChar(UpperChar(w[0])) == LowerChar(w[0]);
    }
  }

  lemma {:induction false} CapitalizeAllFree(words: seq<string>, c: char)
    requires !('a' <= c <= 'z') && !('A' <= c <= 'Z')
    requires forall i :: 0 <= i < |words| ==> c !in words[i]
    ensures c !in CapitalizeAll(words)
    decreases |words|
  {
    if |words| > 0 {
      CapitalizeAllFree(words[1..], c);
      var w := words[0];
      forall i | 0 <= i < |w| ensures Capitalize(w)[i] != c {
        if i > 0 {
          assert Capitalize(w)[i] == Lower(w[1..])[i - 1];
        }
      }
    }
  }

  lemma {:induction false} LowerCapitalizeAll(words: seq<string>, c: char)
    requires forall i :: 0 <= i < |words| ==> c !in words[i]
    ensures Lower(CapitalizeAll(words)) == Lower(Strip(Join(words, c), c))
    decreases |words|
  {
    if |words| == 1 {
      var w := words[0];
      assert CapitalizeAll(words) == Capitalize(w) + "" == Capitalize(w);
      LowerCapitalize(w);
      StripAbsent(w, c);
    } else if |words| > 1 {
      var w, rest := words[0], words[1..];
      var j := Join(rest, c);
      LowerCapitalizeAll(rest, c);
      assert Join(words, c) == w + [c] + j;
      StripJoinStep(w, c, j);
      assert Strip(Join(words, c), c) == w + Strip(j, c);
      LowerConcat(w, Strip(j, c));
      LowerConcat(Capitalize(w), CapitalizeAll(rest));
      LowerCapitalize(w);
    }
  }

  lemma StripJoinStep(w: string, c: char, j: string)
    requires c !in w
    ensures Strip(w + [c] + j, c) == w + Strip(j, c)
  {
    var a := w + [c];
    assert Strip(a, c) == w by {
      StripConcat(w, [c], c);
      StripAbsent(w, c);
      assert Strip([c], c) == "";
    }
    StripConcat(a, j, c);
  }

  lemma LowerOfLower(s: string)
    requires forall i :: 0 <= i < |s| ==> !('A' <= s[i] <= 'Z')
    ensures Lower(s) == s
  {
  }

  /** Up to letter case, the label spells the table name with its underscores removed. */
  lemma PascalCaseSpelling(name: string)
    ensures Lower(PascalCase(name)) == Lower(Strip(name, '_'))
  {
    LowerCapitalizeAll(Split(name, '_'), '_');
  }

  /** The label is the capitalization of the words the name was joined from. */
  lemma PascalCaseWords(words: seq<string>)
    requires |words| >= 1
    requires forall i :: 0 <= i < |words| ==> '_' !in words[i]
    ensures PascalCase(Join(words, '_')) == CapitalizeAll(words)
  {
    SplitJoin(words, '_');
  }

  /** The example from link-table naming: `founded_by` becomes `FoundedBy`. */
  lemma PascalCaseFoundedBy()
    ensures PascalCase("founded_by") == "FoundedBy"
  {
    var words := ["founded", "by"];
    var name := Join(words, '_');
    JoinTwo("founded", "by");
    assert name == "founded_by";
    PascalCaseWords(words);
    assert PascalCase(name) == CapitalizeAll(words);
    CapitalizeFounded();
    CapitalizeBy();
    assert CapitalizeAll(words[1..]) == Capitalize("by") + CapitalizeAll([]);
    assert CapitalizeAll(words) == "FoundedBy";
  }

  lemma JoinTwo(a: string, b: string)
    ensures Join([a, b], '_') == a + "_" + b
  {
    assert [a, b][1..] == [b];
  }

  lemma CapitalizeFounded()
    ensures Capitalize("founded") == "Founded"
  {
    LowerOfLower("ounded");
    assert "founded"[1..] == "ounded";
  }

  lemma CapitalizeBy()
    ensures Capitalize("by") == "By"
  {
    LowerOfLower("y");
    assert "by"[1..] == "y";
  }

}
