/** JSON values as the scripts see them after parsing, and the few string tests they use. */
module JsonDoc {

  datatype Json =
    | Null
    | Bool(b: bool)
    | Int(i: int)
    | Num(r: real)
    | Str(s: string)
    | List(items: seq<Json>)
    | Obj(fields: map<string, Json>)

  /** `d.get(k)` on a dict, and None on anything else, as `_dig` steps. */
  function Get(d: Json, k: string): Json {
    if d.Obj? && k in d.fields then d.fields[k] else Null
  }

  predicate Has(d: Json, k: string) {
    d.Obj? && k in d.fields
  }

  predicate Truthy(j: Json) {
    match j
    case Null => false
    case Bool(b) => b
    case Int(i) => i != 0
    case Num(r) => r != 0.0
    case Str(s) => s != ""
    case List(items) => items != []
    case Obj(fields) => fields != map[]
  }

  function IntOr0(j: Json): int {
    if j.Int? then j.i else 0
  }

  predicate IsCount(j: Json) {
    j.Int? && j.i >= 0
  }

  predicate NullOrStr(j: Json) {
    j.Null? || j.Str?
  }

  function LowerChar(c: char): char {
    if 'A' <= c <= 'Z' then ((c as int) + 32) as char else c
  }

  function Lower(s: string): (r: string)
    ensures |r| == |s|
  {
    seq(|s|, i requires 0 <= i < |s| => LowerChar(s[i]))
  }

  predicate At(s: string, part: string, i: int) {
    0 <= i <= |s| - |part| && s[i..i + |part|] == part
  }

  predicate Contains(s: string, part: string) {
    exists i :: 0 <= i <= |s| && At(s, part, i)
  }

  predicate EndsWith(s: string, part: string) {
    |part| <= |s| && s[|s| - |part|..] == part
  }

  predicate Blank(s: string) {
    forall i :: 0 <= i < |s| ==> s[i] in {' ', '\t', '\n', '\r'}
  }

  /** `os.path.basename`: what follows the last slash. */
  function Basename(path: string): string {
    if path == "" || path[|path| - 1] == '/' then "" else Basename(path[..|path| - 1]) + [path[|path| - 1]]
  }

  // ------------------------------------------------------------------------
  // What the text functions mean
  // ------------------------------------------------------------------------

  /** A part occurs in a text exactly when the text is something, the part, and something. */
  lemma ContainsIff(s: string, part: string)
    ensures Contains(s, part) <==> exists before, after :: Surrounds(s, before, part, after)
  {
    if i :| 0 <= i <= |s| && At(s, part, i) {
      assert s == s[..i] + part + s[i + |part|..];
      assert Surrounds(s, s[..i], part, s[i + |part|..]);
    }
    if before, after :| Surrounds(s, before, part, after) {
      assert s[|before|..|before| + |part|] == part;
      assert At(s, part, |before|);
    }
  }

  predicate Surrounds(s: string, before: string, part: string, after: string) {
    s == before + part + after
  }

  lemma EndsWithIff(s: string, part: string)
    ensures EndsWith(s, part) <==> exists before :: Surrounds(s, before, part, "")
  {
    if EndsWith(s, part) {
      assert s == s[..|s| - |part|] + part + "";
      assert Surrounds(s, s[..|s| - |part|], part, "");
    }
    if before :| Surrounds(s, before, part, "") {
      assert s[|before|..] == part;
    }
  }

  lemma BasenameSnoc(path: string, c: char)
    requires c != '/'
    ensures Basename(path + [c]) == Basename(path) + [c]
  {
    var p := path + [c];
    assert p[..|p| - 1] == path && p[|p| - 1] == c;
  }

  /** The name after the last slash. */
  lemma {:induction false} BasenameIs(directory: string, name: string)
    requires forall i :: 0 <= i < |name| ==> name[i] != '/'
    ensures Basename(directory + "/" + name) == name && Basename(name) == name
  {
    var above := directory + "/";
    if name == "" {
      assert above + name == above && above[|above| - 1] == '/';
    } else {
      var n := |name| - 1;
      BasenameIs(directory, name[..n]);
      BasenameSnoc(above + name[..n], name[n]);
      BasenameSnoc(name[..n], name[n]);
      assert name[..n] + [name[n]] == name;
      assert above + name[..n] + [name[n]] == above + name;
    }
  }

  /** Letters are folded one by one, everything else stays. */
  lemma LowerFolds(s: string, i: nat)
    requires i < |s|
    ensures var upper, lower := "ABCDEFGHIJKLMNOPQRSTUVWXYZ", "abcdefghijklmnopqrstuvwxyz";
            && (forall k :: 0 <= k < 26 && s[i] == upper[k] ==> Lower(s)[i] == lower[k])
            && (s[i] !in upper ==> Lower(s)[i] == s[i])
  {
    var upper := "ABCDEFGHIJKLMNOPQRSTUVWXYZ";
    if 'A' <= s[i] <= 'Z' {
      assert upper[s[i] as int - 'A' as int] == s[i];
    }
  }

  /** Only null, false, zero and what is empty count as false. */
  lemma TruthyIff(j: Json)
    ensures Truthy(j) <==> j !in {Null, Bool(false), Int(0), Num(0.0), Str(""), List([]), Obj(map[])}
  {
  }
}
