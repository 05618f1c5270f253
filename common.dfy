/** Vocabulary shared by the whole model: optional values, request-body
    fields, the outcome of an HTTP handler, and the few pieces of JavaScript
    string and sequence behaviour the handlers rely on. */
module Common {

  datatype Option<+T> = None | Some(value: T)

  /** A millisecond timestamp, as `Date.now()` returns it. */
  type Time = int

  /** A MongoDB ObjectId, in its string form. */
  type Id = string

  const HOUR: int := 60 * 60 * 1000
  const QUARTER_HOUR: int := 15 * 60 * 1000

  /** A string-valued field of a JSON request body: absent (`undefined`),
      an explicit `null`, or a string. */
  datatype Field = Absent | Null | Text(text: string)

  /** JavaScript truthiness of a body field: only a non-empty string is truthy. */
  predicate Truthy(f: Field) {
    f.Text? && f.text != ""
  }

  /** Truthiness of an optional stored string (`undefined`/`null` or `""` are falsy). */
  predicate Present(o: Option<string>) {
    o.Some? && o.value != ""
  }

  /** The value a Mongoose string path holds after `doc.path = f`. */
  function Stored(f: Field): Option<string> {
    if f.Text? then Some(f.text) else None
  }

  /** `o || ""` for an optional string. */
  function OrEmpty(o: Option<string>): string {
    if o.Some? then o.value else ""
  }

  /** How an HTTP handler ends when it does not succeed. `Crash` is an
      exception that escapes an async handler that has no catch block: the
      handler itself never answers the request. */
  datatype Failure =
    | BadRequest(message: string)    // 400
    | Unauthorized(message: string)  // 401
    | Forbidden(message: string)     // 403
    | NotFound(message: string)      // 404
    | ServerError(message: string)   // 500, from a catch block
    | Crash

  datatype Result<T> = Ok(value: T) | Err(failure: Failure)

  // ---------------------------------------------------------------------
  // Strings

  /** The characters `String.prototype.trim` removes: white space and line
      terminators as ECMAScript defines them. */
  predicate IsSpace(c: char) {
    c == '\t' || c == '\n' || c == '\U{B}' || c == '\U{C}' || c == '\r' || c == ' '
    || c == '\U{A0}' || c == '\U{1680}' || ('\U{2000}' <= c <= '\U{200A}')
    || c == '\U{2028}' || c == '\U{2029}' || c == '\U{202F}' || c == '\U{205F}'
    || c == '\U{3000}' || c == '\U{FEFF}'
  }

  function TrimStart(s: string): (r: string)
    ensures |r| <= |s| && r == s[|s| - |r|..]
    ensures forall i :: 0 <= i < |s| - |r| ==> IsSpace(s[i])
    ensures r != [] ==> !IsSpace(r[0])
    decreases |s|
  {
    if s != [] && IsSpace(s[0]) then TrimStart(s[1..]) else s
  }

  function TrimEnd(s: string): (r: string)
    ensures |r| <= |s| && r == s[..|r|]
    ensures forall i :: |r| <= i < |s| ==> IsSpace(s[i])
    ensures r != [] ==> !IsSpace(r[|r| - 1])
    decreases |s|
  {
    if s != [] && IsSpace(s[|s| - 1]) then TrimEnd(s[..|s| - 1]) else s
  }

  /** `s.trim()`: the result is the part of `s` between its leading and its
      trailing white space. */
  function Trim(s: string): (r: string)
    ensures |r| <= |s|
    ensures r != [] ==> !IsSpace(r[0]) && !IsSpace(r[|r| - 1])
  {
    TrimEnd(TrimStart(s))
  }

  /** `!s.trim()`: the string is empty or white space only. */
  predicate IsBlank(s: string) {
    Trim(s) == ""
  }

  /** A blank string is exactly one made of white space only. */
  lemma BlankIffAllSpace(s: string)
    ensures IsBlank(s) <==> forall i :: 0 <= i < |s| ==> IsSpace(s[i])
  {
    if forall i :: 0 <= i < |s| ==> IsSpace(s[i]) {
      AllSpaceTrimsAway(s);
    } else {
      var t := TrimStart(s);
      var i :| 0 <= i < |s| && !IsSpace(s[i]);
      assert |s| - |t| <= i;
      assert !IsSpace(t[0]);
      assert |TrimEnd(t)| > 0;
    }
  }

  lemma {:induction false} AllSpaceTrimsAway(s: string)
    requires forall i :: 0 <= i < |s| ==> IsSpace(s[i])
    ensures TrimStart(s) == []
    decreases |s|
  {
    if s != [] {
      AllSpaceTrimsAway(s[1..]);
    }
  }

  /** The no-break space, the byte order mark and the other Unicode spaces
      are trimmed like the ASCII ones. */
  lemma TrimRemovesUnicodeSpace(u: string)
    requires u != [] && !IsSpace(u[0]) && !IsSpace(u[|u| - 1])
    ensures IsBlank("\U{A0}")
    ensures IsBlank("\U{FEFF}\U{2028}\U{3000}")
    ensures Trim("\U{A0}" + u + "\U{202F}") == u
  {
    BlankIffAllSpace("\U{A0}");
    BlankIffAllSpace("\U{FEFF}\U{2028}\U{3000}");
    TrimPadded('\U{A0}', u, '\U{202F}');
  }

  /** A string that starts with a character other than white space is not
      blank. */
  lemma NotBlankAtStart(s: string)
    requires s != [] && !IsSpace(s[0])
    ensures !IsBlank(s)
  {
    assert TrimStart(s) == s;
  }

  /** One white-space character on either side of a string is trimmed
      away. */
  lemma TrimPadded(a: char, u: string, b: char)
    requires IsSpace(a) && IsSpace(b)
    requires u != [] && !IsSpace(u[0]) && !IsSpace(u[|u| - 1])
    ensures Trim([a] + u + [b]) == u
  {
    var p := [a] + u + [b];
    assert p[1..] == u + [b];
    assert TrimStart(u + [b]) == u + [b];
    assert (u + [b])[..|u|] == u;
  }

  /** A string with no white space at either end is left alone by `trim`. */
  lemma TrimNoOp(s: string)
    requires s != [] ==> !IsSpace(s[0]) && !IsSpace(s[|s| - 1])
    ensures Trim(s) == s
  {
    assert TrimStart(s) == s;
  }

  /** Trimming is idempotent. */
  lemma TrimIdempotent(s: string)
    ensures Trim(Trim(s)) == Trim(s)
  {
    TrimNoOp(Trim(s));
  }

  function LowerChar(c: char): char {
    if 'A' <= c <= 'Z' then (c as int + 32) as char else c
  }

  function UpperChar(c: char): char {
    if 'a' <= c <= 'z' then (c as int - 32) as char else c
  }

  /** `s.toLowerCase()` on the ASCII letters. */
  function Lower(s: string): (r: string)
    ensures |r| == |s|
    ensures forall i :: 0 <= i < |s| ==> r[i] == LowerChar(s[i])
  {
    if s == [] then [] else [LowerChar(s[0])] + Lower(s[1..])
  }

  /** What the `lowercase` and `trim` setters of a Mongoose string path make
      of a value, on save and in a query filter alike. */
  function NormEmail(s: string): string {
    Lower(Trim(s))
  }

  /** A normalised address is its own normal form, so normalising twice (the
      bulk path trims and lowercases before the schema does it again) changes
      nothing. */
  lemma NormEmailIdempotent(s: string)
    ensures NormEmail(NormEmail(s)) == NormEmail(s)
  {
    var t := Trim(s);
    var l := Lower(t);
    if l != [] {
      LowerCharKeepsNonSpace(t[0]);
      LowerCharKeepsNonSpace(t[|t| - 1]);
    }
    TrimNoOp(l);
    assert Lower(l) == l;
  }

  /** Lowercasing never turns a character into white space. */
  lemma LowerCharKeepsNonSpace(c: char)
    requires !IsSpace(c)
    ensures !IsSpace(LowerChar(c))
  {
  }

  /** `field.charAt(0).toUpperCase() + field.slice(1)`. */
  function Capitalize(s: string): (r: string)
    ensures |r| == |s|
    ensures s != "" ==> r[0] == UpperChar(s[0]) && r[1..] == s[1..]
  {
    if s == "" then "" else [UpperChar(s[0])] + s[1..]
  }

  predicate IsHexDigit(c: char) {
    ('0' <= c <= '9') || ('a' <= c <= 'f') || ('A' <= c <= 'F')
  }

  /** `/^[0-9a-fA-F]{24}$/.test(s)`: the shape of an ObjectId. */
  predicate IsHex24(s: string) {
    |s| == 24 && forall i :: 0 <= i < |s| ==> IsHexDigit(s[i])
  }

  /** The id a query value names once Mongoose or `new ObjectId` has cast
      it. The hexadecimal digits are read case-insensitively, and a stored
      `_id` is written in lower case, so the cast is the lower-case spelling. */
  function ObjectIdOf(s: string): Id {
    Lower(s)
  }

  /** The cast keeps an ObjectId an ObjectId and leaves no upper-case
      letter. */
  lemma ObjectIdShape(s: string)
    ensures IsHex24(s) ==> IsHex24(ObjectIdOf(s))
    ensures forall i :: 0 <= i < |ObjectIdOf(s)| ==> !('A' <= ObjectIdOf(s)[i] <= 'Z')
  {
  }

  /** Two spellings of an id that differ only in the case of their letters
      name the same record. */
  lemma {:induction false} ObjectIdIgnoresCase(s: string, t: string)
    requires |s| == |t| && forall i :: 0 <= i < |s| ==> LowerChar(s[i]) == LowerChar(t[i])
    ensures ObjectIdOf(s) == ObjectIdOf(t)
  {
    var a, b := ObjectIdOf(s), ObjectIdOf(t);
    assert |a| == |b|;
    forall i | 0 <= i < |a| ensures a[i] == b[i] {
      assert a[i] == LowerChar(s[i]) && b[i] == LowerChar(t[i]);
    }
  }

  /** A cast id is its own cast. */
  lemma ObjectIdOfIdempotent(s: string)
    ensures ObjectIdOf(ObjectIdOf(s)) == ObjectIdOf(s)
  {
    var r := ObjectIdOf(s);
    assert forall i :: 0 <= i < |r| ==> LowerChar(r[i]) == r[i];
  }

  /** A query filter `{ path: claim }` on an ObjectId path: Mongoose casts
      the claim before the query runs and throws a CastError when it is not
      24 hexadecimal digits. */
  predicate CastFails(claim: Option<string>) {
    claim.Some? && !IsHex24(claim.value)
  }

  /** The value such a filter holds once cast; an undefined claim stays
      undefined. */
  function CastClaim(claim: Option<string>): Option<Id> {
    if claim.None? then None else Some(ObjectIdOf(claim.value))
  }

  /** A claim and its lower-case spelling throw alike and cast alike. */
  lemma CastClaimIgnoresCase(s: string)
    ensures CastFails(Some(s)) <==> CastFails(Some(ObjectIdOf(s)))
    ensures CastClaim(Some(s)) == CastClaim(Some(ObjectIdOf(s)))
  {
    ObjectIdShape(s);
    ObjectIdOfIdempotent(s);
    if IsHex24(ObjectIdOf(s)) {
      forall i | 0 <= i < |s| ensures IsHexDigit(s[i]) {
        assert IsHexDigit(ObjectIdOf(s)[i]);
      }
    }
  }

  /** `s.split(" ")`. */
  function SplitSpace(s: string): (parts: seq<string>)
    ensures |parts| >= 1
    decreases |s|
  {
    if s == [] then [""]
    else
      var rest := SplitSpace(s[1..]);
      if s[0] == ' ' then [""] + rest else [[s[0]] + rest[0]] + rest[1..]
  }

  /** A word without spaces followed by a space splits off as the first piece. */
  lemma {:induction false} SplitAfterWord(w: string, rest: string)
    requires ' ' !in w
    ensures SplitSpace(w + " " + rest) == [w] + SplitSpace(rest)
    decreases |w|
  {
    var s := w + " " + rest;
    if w == [] {
      assert s == [' '] + rest;
      assert s[1..] == rest;
    } else {
      SplitAfterWord(w[1..], rest);
      assert s[0] == w[0] && s[1..] == w[1..] + " " + rest;
      assert [w[0]] + w[1..] == w;
    }
  }

  /** A string without spaces is a single piece. */
  lemma {:induction false} SplitNoSpace(t: string)
    requires ' ' !in t
    ensures SplitSpace(t) == [t]
    decreases |t|
  {
    if t != [] {
      SplitNoSpace(t[1..]);
      assert [t[0]] + t[1..] == t;
    }
  }

  /** `parts.join(" ")`. */
  function JoinSpace(parts: seq<string>): string {
    if parts == [] then ""
    else if |parts| == 1 then parts[0]
    else parts[0] + " " + JoinSpace(parts[1..])
  }

  /** Splitting on spaces and joining with spaces gives the string back, and
      no piece contains a space. */
  lemma {:induction false} JoinSplit(s: string)
    ensures JoinSpace(SplitSpace(s)) == s
    ensures forall k :: 0 <= k < |SplitSpace(s)| ==> ' ' !in SplitSpace(s)[k]
    decreases |s|
  {
    if s != [] {
      var rest := SplitSpace(s[1..]);
      JoinSplit(s[1..]);
      if s[0] == ' ' {
        assert SplitSpace(s) == [""] + rest;
        assert JoinSpace(SplitSpace(s)) == "" + " " + JoinSpace(rest);
      } else {
        var parts := SplitSpace(s);
        assert parts == [[s[0]] + rest[0]] + rest[1..];
        assert ' ' !in [s[0]] + rest[0] by {
          assert ' ' !in rest[0];
        }
        if |rest| == 1 {
          assert JoinSpace(parts) == [s[0]] + rest[0];
          assert JoinSpace(rest) == rest[0];
        } else {
          assert parts[1..] == rest[1..];
          assert JoinSpace(parts) == [s[0]] + rest[0] + " " + JoinSpace(rest[1..]);
          assert JoinSpace(rest) == rest[0] + " " + JoinSpace(rest[1..]);
        }
        assert [s[0]] + s[1..] == s;
      }
    }
  }

  // ---------------------------------------------------------------------
  // Sequences, as the store's queries use them

  /** Position of the first element satisfying `p`: `findOne` in storage order. */
  function FirstIndex<T>(s: seq<T>, p: T -> bool): (r: Option<nat>)
    ensures r.Some? ==> r.value < |s| && p(s[r.value])
    ensures r.Some? ==> forall j :: 0 <= j < r.value ==> !p(s[j])
    ensures r.None? ==> forall j :: 0 <= j < |s| ==> !p(s[j])
  {
    if s == [] then None
    else if p(s[0]) then Some(0)
    else match FirstIndex(s[1..], p)
      case None => None
      case Some(k) => Some(k + 1)
  }

  /** The first element satisfying `p` is at `i`. */
  lemma {:induction false} FirstIndexAt<T>(s: seq<T>, p: T -> bool, i: nat)
    requires i < |s| && p(s[i])
    requires forall j :: 0 <= j < i ==> !p(s[j])
    ensures FirstIndex(s, p) == Some(i)
  {
    if i > 0 {
      FirstIndexAt(s[1..], p, i - 1);
    }
  }

  /** Nothing satisfies `p`. */
  lemma {:induction false} FirstIndexNone<T>(s: seq<T>, p: T -> bool)
    requires forall j :: 0 <= j < |s| ==> !p(s[j])
    ensures FirstIndex(s, p) == None
  {
    if s != [] {
      FirstIndexNone(s[1..], p);
    }
  }

  /** Replacing an element by one that `p` judges alike does not move the
      first match. */
  lemma FirstIndexUpdate<T>(s: seq<T>, p: T -> bool, k: nat, x: T)
    requires k < |s| && p(x) == p(s[k])
    ensures FirstIndex(s[k := x], p) == FirstIndex(s, p)
  {
    var t := s[k := x];
    assert forall j :: 0 <= j < |s| ==> p(t[j]) == p(s[j]);
    match FirstIndex(s, p)
    case None => FirstIndexNone(t, p);
    case Some(i) => FirstIndexAt(t, p, i);
  }

  /** The elements satisfying `p`, in storage order: `find(filter)`. */
  function Filter<T>(s: seq<T>, p: T -> bool): (r: seq<T>)
    ensures |r| <= |s|
    ensures forall i :: 0 <= i < |r| ==> p(r[i])
  {
    if s == [] then []
    else if p(s[0]) then [s[0]] + Filter(s[1..], p)
    else Filter(s[1..], p)
  }

  /** An element satisfying `p` is kept. */
  lemma {:induction false} FilterKeeps<T>(s: seq<T>, p: T -> bool, i: nat)
    requires i < |s| && p(s[i])
    ensures s[i] in Filter(s, p)
  {
    if i > 0 {
      assert s[1..][i - 1] == s[i];
      FilterKeeps(s[1..], p, i - 1);
    }
  }

  /** A kept element comes from the input. */
  lemma {:induction false} FilterFrom<T>(s: seq<T>, p: T -> bool, i: nat)
    requires i < |Filter(s, p)|
    ensures Filter(s, p)[i] in s
  {
    if s != [] {
      if p(s[0]) {
        if i > 0 {
          FilterFrom(s[1..], p, i - 1);
        }
      } else {
        FilterFrom(s[1..], p, i);
      }
    }
  }

  /** A relation that holds between every earlier and later element still
      holds after filtering: filtering keeps the storage order. */
  lemma {:induction false} FilterKeepsPairwise<T>(s: seq<T>, p: T -> bool, rel: (T, T) -> bool)
    requires forall i, j :: 0 <= i < j < |s| ==> rel(s[i], s[j])
    ensures forall i, j :: 0 <= i < j < |Filter(s, p)| ==> rel(Filter(s, p)[i], Filter(s, p)[j])
    decreases |s|
  {
    if s != [] {
      FilterKeepsPairwise(s[1..], p, rel);
      if p(s[0]) {
        var rest := Filter(s[1..], p);
        var r := [s[0]] + rest;
        forall j | 0 < j < |r| ensures rel(r[0], r[j]) {
          FilterFrom(s[1..], p, j - 1);
          var k :| 0 <= k < |s[1..]| && s[1..][k] == rest[j - 1];
          assert s[k + 1] == r[j];
        }
        forall i, j | 0 < i < j < |r| ensures rel(r[i], r[j]) {
          assert r[i] == rest[i - 1] && r[j] == rest[j - 1];
        }
      }
    }
  }

  /** A property of every element still holds after filtering. */
  lemma FilterKeepsAll<T>(s: seq<T>, p: T -> bool, q: T -> bool)
    requires forall i :: 0 <= i < |s| ==> q(s[i])
    ensures forall i :: 0 <= i < |Filter(s, p)| ==> q(Filter(s, p)[i])
  {
    forall i | 0 <= i < |Filter(s, p)| ensures q(Filter(s, p)[i]) {
      FilterFrom(s, p, i);
    }
  }

  /** Filtering keeps exactly the elements satisfying `p`. */
  lemma FilterMembers<T>(s: seq<T>, p: T -> bool)
    ensures forall i :: 0 <= i < |s| && p(s[i]) ==> s[i] in Filter(s, p)
    ensures forall i :: 0 <= i < |Filter(s, p)| ==> Filter(s, p)[i] in s
  {
    forall i | 0 <= i < |s| && p(s[i]) ensures s[i] in Filter(s, p) {
      FilterKeeps(s, p, i);
    }
    forall i | 0 <= i < |Filter(s, p)| ensures Filter(s, p)[i] in s {
      FilterFrom(s, p, i);
    }
  }

  /** Number of elements satisfying `p`: `countDocuments(filter)`. */
  function Count<T>(s: seq<T>, p: T -> bool): (n: nat)
    ensures n == |Filter(s, p)|
  {
    if s == [] then 0
    else (if p(s[0]) then 1 else 0) + Count(s[1..], p)
  }

  ghost predicate SortedDesc<T>(s: seq<T>, key: T -> int) {
    forall i, j :: 0 <= i < j < |s| ==> key(s[i]) >= key(s[j])
  }

  function InsertDesc<T>(x: T, s: seq<T>, key: T -> int): (r: seq<T>)
    requires SortedDesc(s, key)
    ensures SortedDesc(r, key)
    ensures multiset(r) == multiset(s) + multiset{x}
  {
    if s == [] || key(x) >= key(s[0]) then [x] + s
    else
      var tail := InsertDesc(x, s[1..], key);
      assert s == [s[0]] + s[1..];
      InsertDescBelowHead(x, s, key, tail);
      [s[0]] + tail
  }

  /** What is inserted behind the head of a sorted sequence stays no
      larger than that head. */
  lemma InsertDescBelowHead<T>(x: T, s: seq<T>, key: T -> int, tail: seq<T>)
    requires s != [] && SortedDesc(s, key) && key(x) < key(s[0])
    requires multiset(tail) == multiset(s[1..]) + multiset{x}
    ensures forall j :: 0 <= j < |tail| ==> key(tail[j]) <= key(s[0])
  {
    forall j | 0 <= j < |tail| ensures key(tail[j]) <= key(s[0]) {
      var y := tail[j];
      assert y in multiset(tail);
      if y != x {
        assert y in multiset(s[1..]);
        var k :| 0 <= k < |s[1..]| && s[1..][k] == y;
        assert s[k + 1] == y;
      }
    }
  }

  /** `sort({ key: -1 })`: newest (largest key) first. MongoDB promises no
      order among equal keys; this definition picks one, and no lemma relies
      on it. */
  function SortDesc<T>(s: seq<T>, key: T -> int): (r: seq<T>)
    ensures |r| == |s|
    ensures SortedDesc(r, key)
    ensures multiset(r) == multiset(s)
  {
    if s == [] then []
    else
      assert s == [s[0]] + s[1..];
      var r := InsertDesc(s[0], SortDesc(s[1..], key), key);
      assert |multiset(r)| == |r| && |multiset(s)| == |s|;
      r
  }

  /** Sorting neither adds nor drops an element. */
  lemma SortDescSameElements<T>(s: seq<T>, key: T -> int, x: T)
    ensures x in SortDesc(s, key) <==> x in s
  {
    assert x in SortDesc(s, key) <==> x in multiset(SortDesc(s, key));
    assert x in s <==> x in multiset(s);
  }

  /** A reordering keeps the values of `f` pairwise distinct. */
  lemma PermutationKeepsDistinct<T, K>(s: seq<T>, r: seq<T>, f: T -> K)
    requires multiset(r) == multiset(s)
    requires forall a, b :: 0 <= a < b < |s| ==> f(s[a]) != f(s[b])
    ensures forall i, j :: 0 <= i < j < |r| ==> f(r[i]) != f(r[j])
  {
    forall i, j | 0 <= i < j < |r| ensures f(r[i]) != f(r[j]) {
      if f(r[i]) == f(r[j]) {
        assert r[i] in multiset(r) && r[j] in multiset(r);
        var a :| 0 <= a < |s| && s[a] == r[i];
        var b :| 0 <= b < |s| && s[b] == r[j];
        if r[i] == r[j] {
          OccursTwice(r, i, j);
          OccursOnce(s, a, f);
        }
      }
    }
  }

  lemma OccursTwice<T>(s: seq<T>, i: nat, j: nat)
    requires i < j < |s| && s[i] == s[j]
    ensures multiset(s)[s[i]] >= 2
  {
    assert s == s[..j] + s[j..];
    assert s[..j][i] == s[i];
    assert s[j..][0] == s[i];
  }

  lemma OccursOnce<T, K>(s: seq<T>, a: nat, f: T -> K)
    requires a < |s|
    requires forall x, y :: 0 <= x < y < |s| ==> f(s[x]) != f(s[y])
    ensures multiset(s)[s[a]] == 1
  {
    assert s == s[..a] + [s[a]] + s[a + 1..];
    assert s[a] !in s[..a];
    assert s[a] !in s[a + 1..];
  }

  /** `limit(n)`. */
  function Take<T>(s: seq<T>, n: nat): (r: seq<T>)
    ensures |r| == if |s| <= n then |s| else n
    ensures r == s[..|r|]
  {
    if |s| <= n then s else s[..n]
  }
}
