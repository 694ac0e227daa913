// The response builder of broadcast_server: an alternating key/value list
// becomes a flat JSON object text. Keys and values are copied verbatim,
// with no escaping.

module ResponseJson {

  /** `s` between double quotes; nothing inside it is escaped. */
  function Quoted(s: string): string
  {
    "\"" + s + "\""
  }

  predicate EndsWith(s: string, suffix: string)
  {
    |suffix| <= |s| && s[|s| - |suffix|..] == suffix
  }

  /** The text appended for element `i` of the list: a key (even index) is
    * followed by a colon, a value (odd index) by a comma unless it is the
    * last element. */
  function Piece(a: seq<string>, i: nat): string
    requires i < |a|
  {
    if i % 2 == 0 then Quoted(a[i]) + ":"
    else if i != |a| - 1 then Quoted(a[i]) + ","
    else Quoted(a[i])
  }

  /** The pieces of the first `n` elements, in order. */
  function Pieces(a: seq<string>, n: nat): string
    requires n <= |a|
  {
    if n == 0 then "" else Pieces(a, n - 1) + Piece(a, n - 1)
  }

  /** What the serialiser returns for the list `a`. */
  function Serialized(a: seq<string>): (r: string)
    ensures |r| >= 2 && r[0] == '{' && r[|r| - 1] == '}'
    ensures a == [] ==> r == "{}"
  {
    "{" + Pieces(a, |a|) + "}"
  }

  /** The serialiser itself: one append per list element, then the closing brace. */
  method SerializeResponse(a: seq<string>) returns (r: string)
    ensures r == Serialized(a)
  {
    r := "{";
    var i := 0;
    while i < |a|
      invariant 0 <= i <= |a|
      invariant r == "{" + Pieces(a, i)
    {
      var piece;
      if i % 2 == 0 {
        piece := Quoted(a[i]) + ":";
      } else if i != |a| - 1 {
        piece := Quoted(a[i]) + ",";
      } else {
        piece := Quoted(a[i]);
      }
      AppendPiece(a, i);
      r := r + piece;
      i := i + 1;
    }
    r := r + "}";
  }

  // An independent description of well-formed output: the JSON object whose
  // members are the consecutive key/value pairs of the list, joined by commas.

  function Member(key: string, value: string): string
  {
    Quoted(key) + ":" + Quoted(value)
  }

  /** The members for the first `n` elements (`n / 2` pairs) of `a`. */
  function Members(a: seq<string>, n: nat): string
    requires n <= |a| && n % 2 == 0
  {
    if n == 0 then ""
    else if n == 2 then Member(a[0], a[1])
    else Members(a, n - 2) + "," + Member(a[n - 2], a[n - 1])
  }

  function Object(a: seq<string>): string
    requires |a| % 2 == 0
  {
    "{" + Members(a, |a|) + "}"
  }

  /** A list of even length 2n serialises to the JSON object of its n
    * key/value pairs, in list order. */
  lemma SerializedPairs(a: seq<string>)
    requires |a| % 2 == 0
    ensures Serialized(a) == Object(a)
  {
    PiecesOfPairs(a, |a|);
    assert Members(a, |a|) + Separator(true) == Members(a, |a|);
  }

  /** With no comma inside keys and values, a list of 2n >= 2 elements
    * serialises with exactly n - 1 commas. */
  lemma SerializedCommas(a: seq<string>)
    requires |a| % 2 == 0 && |a| > 0
    requires forall i :: 0 <= i < |a| ==> ',' !in a[i]
    ensures |a| == 2 * (Commas(Serialized(a)) + 1)
  {
    SerializedPairs(a);
    AllCommaFree(a, |a|);
    MembersCommas(a, |a|);
    CommasAppend("{", Members(a, |a|));
    CommasAppend("{" + Members(a, |a|), "}");
  }

  /** The number of commas in `s`. */
  function Commas(s: string): nat
  {
    if s == [] then 0 else Commas(s[..|s| - 1]) + (if s[|s| - 1] == ',' then 1 else 0)
  }

  /** A list of odd length ends in a key with no value: the text closes
    * with `"<last key>":}`, which is not valid JSON. */
  lemma {:induction false} DanglingKey(a: seq<string>)
    requires |a| % 2 == 1
    ensures EndsWith(Serialized(a), Quoted(a[|a| - 1]) + ":}")
  {
    LastKey(a);
    ClosingKey(Pieces(a, |a| - 1), Quoted(a[|a| - 1]));
  }

  // Proof steps.

  function Separator(last: bool): string
  {
    if last then "" else ","
  }

  lemma {:induction false} PiecesOfPairs(a: seq<string>, n: nat)
    requires n <= |a| && n % 2 == 0
    ensures Pieces(a, n) == if n == 0 then "" else Members(a, n) + Separator(n == |a|)
  {
    if n > 0 {
      Parity(n);
      PiecesOfPairs(a, n - 2);
      PairPieces(a, n);
      var before, last, sep := Pieces(a, n - 2), Member(a[n - 2], a[n - 1]), Separator(n == |a|);
      if n == 2 {
        assert Members(a, n) == last;
        assert before + (last + sep) == last + sep;
      } else {
        assert Separator(n - 2 == |a|) == ",";
        assert Members(a, n) == Members(a, n - 2) + "," + last;
        NextMember(before, Members(a, n - 2), last, sep);
      }
    }
  }

  lemma NextMember(before: string, members: string, last: string, sep: string)
    requires before == members + ","
    ensures before + (last + sep) == (members + "," + last) + sep
  {
    Assoc(before, last, sep);
  }

  lemma AppendPiece(a: seq<string>, i: nat)
    requires i < |a|
    ensures "{" + Pieces(a, i + 1) == ("{" + Pieces(a, i)) + Piece(a, i)
  {
    Assoc("{", Pieces(a, i), Piece(a, i));
  }

  lemma PairPieces(a: seq<string>, n: nat)
    requires 2 <= n <= |a| && n % 2 == 0
    ensures Pieces(a, n) == Pieces(a, n - 2) + (Member(a[n - 2], a[n - 1]) + Separator(n == |a|))
  {
    var before, key, value, sep := Pieces(a, n - 2), Quoted(a[n - 2]) + ":", Quoted(a[n - 1]), Separator(n == |a|);
    Parity(n);
    KeyPiece(a, n - 2);
    ValuePiece(a, n - 1);
    assert Pieces(a, n) == (before + key) + (value + sep);
    Assoc(before, key, value + sep);
    Assoc(key, value, sep);
  }

  lemma KeyPiece(a: seq<string>, i: nat)
    requires i < |a| && i % 2 == 0
    ensures Piece(a, i) == Quoted(a[i]) + ":"
  {
  }

  lemma ValuePiece(a: seq<string>, i: nat)
    requires i < |a| && i % 2 == 1
    ensures Piece(a, i) == Quoted(a[i]) + Separator(i == |a| - 1)
  {
    if i == |a| - 1 {
      assert Quoted(a[i]) + "" == Quoted(a[i]);
    }
  }

  lemma Parity(n: nat)
    requires n >= 2 && n % 2 == 0
    ensures (n - 2) % 2 == 0 && (n - 1) % 2 == 1
  {
  }

  lemma {:induction false} MembersCommas(a: seq<string>, n: nat)
    requires 2 <= n <= |a| && n % 2 == 0 && CommaFree(a, n)
    ensures n == 2 * (Commas(Members(a, n)) + 1)
  {
    var last := Member(a[n - 2], a[n - 1]);
    CommaFreeLast(a, n);
    MemberCommas(a[n - 2], a[n - 1]);
    if n == 2 {
      assert Members(a, n) == last;
    } else {
      Parity(n);
      MembersCommas(a, n - 2);
      UnfoldMembers(a, n);
      CommasAppend(Members(a, n - 2), ",");
      CommasAppend(Members(a, n - 2) + ",", last);
    }
  }

  /** No comma in the first `n` elements. */
  predicate CommaFree(a: seq<string>, n: nat)
    requires n <= |a|
  {
    n == 0 || (Commas(a[n - 1]) == 0 && CommaFree(a, n - 1))
  }

  lemma CommaFreeLast(a: seq<string>, n: nat)
    requires 2 <= n <= |a| && CommaFree(a, n)
    ensures Commas(a[n - 2]) == 0 && Commas(a[n - 1]) == 0 && CommaFree(a, n - 2)
  {
  }

  lemma {:induction false} AllCommaFree(a: seq<string>, n: nat)
    requires n <= |a| && forall i :: 0 <= i < |a| ==> ',' !in a[i]
    ensures CommaFree(a, n)
  {
    if n > 0 {
      NoCommas(a[n - 1]);
      AllCommaFree(a, n - 1);
    }
  }

  lemma UnfoldMembers(a: seq<string>, n: nat)
    requires 2 < n <= |a| && n % 2 == 0
    ensures (n - 2) % 2 == 0
    ensures Members(a, n) == Members(a, n - 2) + "," + Member(a[n - 2], a[n - 1])
  {
  }

  lemma MemberCommas(key: string, value: string)
    requires Commas(key) == 0 && Commas(value) == 0
    ensures Commas(Member(key, value)) == 0
  {
    assert Commas("\"") == 0 && Commas(":") == 0;
    CommasAppend("\"", key);
    CommasAppend("\"" + key, "\"");
    CommasAppend("\"", value);
    CommasAppend("\"" + value, "\"");
    CommasAppend(Quoted(key), ":");
    CommasAppend(Quoted(key) + ":", Quoted(value));
  }

  lemma {:induction false} CommasAppend(x: string, y: string)
    ensures Commas(x + y) == Commas(x) + Commas(y)
    decreases |y|
  {
    if y == [] {
      assert x + y == x;
    } else {
      var init := y[..|y| - 1];
      assert (x + y)[..|x + y| - 1] == x + init;
      CommasAppend(x, init);
    }
  }

  lemma {:induction false} NoCommas(s: string)
    requires ',' !in s
    ensures Commas(s) == 0
    decreases |s|
  {
    if s != [] {
      assert s[|s| - 1] in s;
      assert forall c :: c in s[..|s| - 1] ==> c in s;
      NoCommas(s[..|s| - 1]);
    }
  }

  lemma Assoc<T>(x: seq<T>, y: seq<T>, z: seq<T>)
    ensures (x + y) + z == x + (y + z)
  {
  }

  lemma LastKey(a: seq<string>)
    requires |a| % 2 == 1
    ensures Pieces(a, |a|) == Pieces(a, |a| - 1) + (Quoted(a[|a| - 1]) + ":")
  {
    var n := |a| - 1;
    KeyPiece(a, n);
    UnfoldPieces(a, n + 1);
  }

  lemma UnfoldPieces(a: seq<string>, n: nat)
    requires 0 < n <= |a|
    ensures Pieces(a, n) == Pieces(a, n - 1) + Piece(a, n - 1)
  {
  }

  lemma ClosingKey(before: string, key: string)
    ensures EndsWith("{" + (before + (key + ":")) + "}", key + ":}")
  {
    Assoc("{", before, key + ":");
    Assoc("{" + before, key + ":", "}");
    Assoc(key, ":", "}");
    assert ":" + "}" == ":}";
    EndsWithAppend("{" + before, key + ":}");
  }

  lemma EndsWithAppend(x: string, suffix: string)
    ensures EndsWith(x + suffix, suffix)
  {
    assert (x + suffix)[|x|..] == suffix;
  }
}
