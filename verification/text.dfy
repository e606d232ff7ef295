/** Whitespace handling of Python's `re` and `str.strip`, and ASCII case folding. */
module Text {
  import opened Sequences

  /** The characters `\s` matches and `str.strip` removes. */
  predicate IsSpace(c: char) {
    var n := c as int;
    || 0x09 <= n <= 0x0D || 0x1C <= n <= 0x20 || n == 0x85 || n == 0xA0 || n == 0x1680
    || 0x2000 <= n <= 0x200A || n == 0x2028 || n == 0x2029 || n == 0x202F || n == 0x205F || n == 0x3000
  }

  /** ASCII lower-casing; other characters are left alone. */
  function LowerChar(c: char): char {
    if 'A' <= c <= 'Z' then ((c as int) + 32) as char else c
  }

  function Lower(s: string): string {
    if s == "" then "" else [LowerChar(s[0])] + Lower(s[1..])
  }

  function LStrip(s: string): string {
    if s != "" && IsSpace(s[0]) then LStrip(s[1..]) else s
  }

  function RStrip(s: string): string {
    if s != "" && IsSpace(s[|s| - 1]) then RStrip(s[..|s| - 1]) else s
  }

  function Strip(s: string): string {
    RStrip(LStrip(s))
  }

  /** `re.sub(r"\s+", " ", s)`: each run of whitespace becomes one space. */
  function Squeeze(s: string): string {
    if s == "" then ""
    else if !IsSpace(s[0]) then [s[0]] + Squeeze(s[1..])
    else if |s| > 1 && IsSpace(s[1]) then Squeeze(s[1..])
    else " " + Squeeze(s[1..])
  }

  function Collapse(s: string): string {
    Strip(Squeeze(s))
  }

  /** Python's `s.split(sep)`: never empty, one more piece than separators. */
  function SplitOn(s: string, sep: char): (pieces: seq<string>)
    ensures pieces != []
  {
    if s == "" then [""]
    else
      var rest := SplitOn(s[1..], sep);
      if s[0] == sep then [""] + rest else [[s[0]] + rest[0]] + rest[1..]
  }

  predicate StartsInSpace(s: string) {
    s != "" && IsSpace(s[0])
  }

  predicate EndsInSpace(s: string) {
    s != "" && IsSpace(s[|s| - 1])
  }

  /** Words separated by single spaces, possibly with one space left dangling at
      the end: what any cut of a collapsed string looks like. */
  predicate Tidy(s: string) {
    forall i :: 0 <= i < |s| && IsSpace(s[i]) ==> s[i] == ' ' && i > 0 && !IsSpace(s[i - 1])
  }

  predicate IsLower(s: string) {
    forall i :: 0 <= i < |s| ==> !('A' <= s[i] <= 'Z')
  }

  lemma {:induction false} LStripShape(s: string)
    ensures !StartsInSpace(LStrip(s))
    ensures |LStrip(s)| <= |s| && LStrip(s) == s[|s| - |LStrip(s)|..]
  {
    if StartsInSpace(s) {
      LStripShape(s[1..]);
      assert s[1..][|s| - 1 - |LStrip(s)|..] == s[|s| - |LStrip(s)|..];
    }
  }

  lemma {:induction false} RStripShape(s: string)
    ensures !EndsInSpace(RStrip(s)) && RStrip(s) <= s
    ensures !StartsInSpace(s) ==> !StartsInSpace(RStrip(s)) && (s != "" ==> RStrip(s) != "")
  {
    if EndsInSpace(s) {
      RStripShape(s[..|s| - 1]);
    }
  }

  lemma StripShape(s: string)
    ensures !StartsInSpace(Strip(s)) && !EndsInSpace(Strip(s))
  {
    LStripShape(s);
    RStripShape(LStrip(s));
  }

  /** `strip` leaves a string alone exactly when neither end is whitespace. */
  lemma StripFixes(s: string)
    ensures Strip(s) == s <==> !StartsInSpace(s) && !EndsInSpace(s)
  {
    StripShape(s);
  }

  lemma {:induction false} SqueezeSpaces(s: string, i: nat)
    requires i < |Squeeze(s)| && IsSpace(Squeeze(s)[i])
    ensures Squeeze(s)[i] == ' ' && (i > 0 ==> !IsSpace(Squeeze(s)[i - 1]))
    ensures |s| > 0 && (i == 0 ==> IsSpace(s[0]))
  {
    if !IsSpace(s[0]) {
      SqueezeSpaces(s[1..], i - 1);
    } else if |s| > 1 && IsSpace(s[1]) {
      SqueezeSpaces(s[1..], i);
    } else if i > 0 {
      SqueezeSpaces(s[1..], i - 1);
    }
  }

  lemma CollapseShape(s: string)
    ensures Tidy(Collapse(s)) && !EndsInSpace(Collapse(s))
  {
    var q := Squeeze(s);
    LStripShape(q);
    RStripShape(LStrip(q));
    var skip := |q| - |LStrip(q)|;
    forall i | 0 <= i < |Collapse(s)| && IsSpace(Collapse(s)[i])
      ensures Collapse(s)[i] == ' ' && i > 0 && !IsSpace(Collapse(s)[i - 1])
    {
      assert Collapse(s)[i] == q[skip + i];
      SqueezeSpaces(s, skip + i);
      assert i > 0 ==> Collapse(s)[i - 1] == q[skip + i - 1];
    }
  }

  lemma {:induction false} SqueezeTidyTail(s: string)
    requires forall i :: 0 <= i < |s| && IsSpace(s[i]) ==> s[i] == ' ' && (i > 0 ==> !IsSpace(s[i - 1]))
    ensures Squeeze(s) == s
  {
    if s != "" {
      forall i | 0 <= i < |s[1..]| && IsSpace(s[1..][i])
        ensures s[1..][i] == ' ' && (i > 0 ==> !IsSpace(s[1..][i - 1]))
      {
        assert s[1..][i] == s[i + 1];
      }
      SqueezeTidyTail(s[1..]);
      if |s| > 1 && IsSpace(s[1]) {
        assert !IsSpace(s[0]);
      }
      assert s == [s[0]] + s[1..];
    }
  }

  /** Drops the one space a tidy string may end in. */
  function DropDangling(s: string): string {
    if EndsInSpace(s) then s[..|s| - 1] else s
  }

  /** Collapsing a tidy string again only removes its dangling space. */
  lemma CollapseTidy(s: string)
    requires Tidy(s)
    ensures Collapse(s) == DropDangling(s)
    ensures Tidy(DropDangling(s)) && !EndsInSpace(DropDangling(s))
    ensures s != "" ==> DropDangling(s) != ""
  {
    SqueezeTidyTail(s);
    assert LStrip(s) == s;
    if EndsInSpace(s) {
      assert !IsSpace(s[|s| - 2]);
      assert RStrip(s) == RStrip(s[..|s| - 1]) == s[..|s| - 1];
    }
  }

  lemma TidyCut(s: string, n: nat)
    requires Tidy(s)
    ensures Tidy(Take(s, n))
  {
  }

  lemma {:induction false} LowerAt(s: string)
    ensures |Lower(s)| == |s| && forall i :: 0 <= i < |s| ==> Lower(s)[i] == LowerChar(s[i])
  {
    if s != "" {
      LowerAt(s[1..]);
    }
  }

  /** The code points `\s` matches and `str.strip` removes. */
  lemma SpacesAre(c: char)
    ensures IsSpace(c) <==>
            c as int in {9, 10, 11, 12, 13, 28, 29, 30, 31, 32, 133, 160, 5760, 8192, 8193, 8194, 8195, 8196,
                         8197, 8198, 8199, 8200, 8201, 8202, 8232, 8233, 8239, 8287, 12288}
  {
  }

  /** Lower-casing moves the letters A to Z by 32 and nothing else. */
  lemma LowerIs(s: string)
    ensures |Lower(s)| == |s|
    ensures forall i :: 0 <= i < |s| ==>
              Lower(s)[i] as int == s[i] as int + if 'A' <= s[i] <= 'Z' then 32 else 0
  {
    LowerAt(s);
  }

  /** Stripping takes whitespace off both ends, all of it, and nothing else. */
  lemma StripIs(s: string) returns (a: string, b: string)
    ensures s == a + Strip(s) + b
    ensures (forall c :: c in a + b ==> IsSpace(c)) && !StartsInSpace(Strip(s)) && !EndsInSpace(Strip(s))
  {
    a := LStripped(s);
    b := RStripped(LStrip(s));
    StripShape(s);
  }

  lemma {:induction false} LStripped(s: string) returns (a: string)
    ensures s == a + LStrip(s) && forall c :: c in a ==> IsSpace(c)
  {
    if StartsInSpace(s) {
      var rest := LStripped(s[1..]);
      a := [s[0]] + rest;
    } else {
      a := "";
    }
  }

  lemma {:induction false} RStripped(s: string) returns (b: string)
    ensures s == RStrip(s) + b && forall c :: c in b ==> IsSpace(c)
  {
    if EndsInSpace(s) {
      var rest := RStripped(s[..|s| - 1]);
      b := rest + [s[|s| - 1]];
      assert s == s[..|s| - 1] + [s[|s| - 1]];
    } else {
      b := "";
    }
  }

  lemma LowerFixes(s: string)
    ensures IsLower(Lower(s))
    ensures IsLower(s) ==> Lower(s) == s
  {
    LowerAt(s);
  }

  /** Case folding moves no whitespace. */
  lemma LowerKeepsShape(s: string)
    ensures Tidy(s) ==> Tidy(Lower(s))
    ensures EndsInSpace(Lower(s)) == EndsInSpace(s)
  {
    LowerAt(s);
    assert forall i :: 0 <= i < |s| ==> IsSpace(Lower(s)[i]) == IsSpace(s[i]);
  }
}
