/** The one-hot encoder `dnaOneHot`: one length-4 row per character. */
module Encoding {
  import opened Results

  /** One encoded base: the channels A, C, G, T, each 0 or 1. */
  type Row = seq<int>

  /** The number of channels a row keeps (the fifth slot, for N, is cut off). */
  const Channels: nat := 4

  /** The characters the lookup table `code` accepts. */
  predicate IsNucleotide(c: char) {
    c == 'A' || c == 'C' || c == 'G' || c == 'T' || c == 'N' ||
    c == 'a' || c == 'c' || c == 'g' || c == 't' || c == 'n'
  }

  /** The slot the lookup table gives each accepted character. */
  function Slot(c: char): (k: nat)
    requires IsNucleotide(c)
    ensures k <= Channels
  {
    if c == 'A' || c == 'a' then 0
    else if c == 'C' || c == 'c' then 1
    else if c == 'G' || c == 'g' then 2
    else if c == 'T' || c == 't' then 3
    else 4
  }

  /** A zero vector of five slots with the character's slot set to 1, cut to
      its first four slots. */
  function RowFor(c: char): Row
    requires IsNucleotide(c)
  {
    seq(Channels + 1, t => if t == Slot(c) then 1 else 0)[..Channels]
  }

  predicate IsDna(s: string) {
    forall k :: 0 <= k < |s| ==> IsNucleotide(s[k])
  }

  /** The encoding of a string every character of which the table accepts. */
  function Encode(s: string): (rows: seq<Row>)
    requires IsDna(s)
    ensures |rows| == |s|
  {
    seq(|s|, k requires 0 <= k < |s| => RowFor(s[k]))
  }

  /** The index of the first character the table rejects. */
  function FirstInvalid(s: string): (k: nat)
    requires !IsDna(s)
    ensures k < |s| && !IsNucleotide(s[k]) && IsDna(s[..k])
  {
    if !IsNucleotide(s[0]) then 0
    else
      var k := FirstInvalid(s[1..]);
      assert s[..k + 1] == [s[0]] + s[1..][..k];
      1 + k
  }

  /** What `dnaOneHot` produces: the rows, or the failed lookup of the first
      rejected character. */
  function OneHot(s: string): Result<seq<Row>> {
    if IsDna(s) then Ok(Encode(s)) else Err(InvalidCharacter(s[FirstInvalid(s)]))
  }

  /** `dnaOneHot`: the loop over the characters, appending one row each. */
  method DnaOneHot(sequence: string) returns (r: Result<seq<Row>>)
    ensures r == OneHot(sequence)
  {
    var encoded: seq<Row> := [];
    for i := 0 to |sequence|
      invariant IsDna(sequence[..i])
      invariant encoded == Encode(sequence[..i])
    {
      var ch := sequence[i];
      if !IsNucleotide(ch) {
        FirstInvalidIsFirst(sequence, i);
        return Err(InvalidCharacter(ch));
      }
      var slots := seq(Channels + 1, _ => 0);
      slots := slots[Slot(ch) := 1];
      assert slots == seq(Channels + 1, t => if t == Slot(ch) then 1 else 0);
      assert sequence[..i + 1] == sequence[..i] + [ch];
      encoded := encoded + [slots[..Channels]];
    }
    assert sequence[..|sequence|] == sequence;
    return Ok(encoded);
  }

  /** A rejected character preceded only by accepted ones is the first. */
  lemma {:induction false} FirstInvalidIsFirst(s: string, i: nat)
    requires i < |s| && IsDna(s[..i]) && !IsNucleotide(s[i])
    ensures FirstInvalid(s) == i
  {
    if i > 0 {
      assert s[..i][0] == s[0];
      assert s[1..][..i - 1] == s[..i][1..];
      FirstInvalidIsFirst(s[1..], i - 1);
    }
  }

  /** The table, channel by channel: A, C, G and T set channels 0, 1, 2 and 3
      in either case, and N sets none. */
  lemma RowForChannels(c: char)
    requires IsNucleotide(c)
    ensures |RowFor(c)| == Channels
    ensures c == 'A' || c == 'a' ==> RowFor(c) == [1, 0, 0, 0]
    ensures c == 'C' || c == 'c' ==> RowFor(c) == [0, 1, 0, 0]
    ensures c == 'G' || c == 'g' ==> RowFor(c) == [0, 0, 1, 0]
    ensures c == 'T' || c == 't' ==> RowFor(c) == [0, 0, 0, 1]
    ensures c == 'N' || c == 'n' ==> RowFor(c) == [0, 0, 0, 0]
  {
  }

  function Sum(r: seq<int>): int {
    if r == [] then 0 else r[0] + Sum(r[1..])
  }

  /** Every encoded row is 0/1-valued and sums to 1, or to 0 for N. */
  lemma RowSumZeroOrOne(c: char)
    requires IsNucleotide(c)
    ensures forall t :: 0 <= t < |RowFor(c)| ==> RowFor(c)[t] in {0, 1}
    ensures Sum(RowFor(c)) == if c == 'N' || c == 'n' then 0 else 1
  {
    RowForChannels(c);
    SumOfFour(RowFor(c));
  }

  lemma SumOfFour(r: seq<int>)
    requires |r| == 4
    ensures Sum(r) == r[0] + r[1] + r[2] + r[3]
  {
    var r1 := r[1..];
    var r2 := r1[1..];
    var r3 := r2[1..];
    assert r3[1..] == [];
    assert Sum(r3) == r[3];
    assert Sum(r2) == r[2] + r[3];
    assert Sum(r1) == r[1] + r[2] + r[3];
  }

  /** Row `k` of the encoding is the table's row for character `k`: exactly one
      channel set for A/C/G/T, none for N, and four channels each. */
  lemma EncodeRows(s: string, k: nat)
    requires IsDna(s) && k < |s|
    ensures |Encode(s)[k]| == Channels
    ensures Sum(Encode(s)[k]) == if s[k] == 'N' || s[k] == 'n' then 0 else 1
    ensures s[k] != 'N' && s[k] != 'n' ==> Encode(s)[k][Slot(s[k])] == 1
  {
    RowSumZeroOrOne(s[k]);
    RowForChannels(s[k]);
  }

  /** An input with a character outside the table fails, naming the first such
      character; an input without one succeeds. */
  lemma OneHotFailsExactly(s: string)
    ensures OneHot(s).Ok? <==> IsDna(s)
    ensures OneHot(s).Err? ==>
      exists k :: 0 <= k < |s| && !IsNucleotide(s[k]) && IsDna(s[..k]) &&
                  OneHot(s).error == InvalidCharacter(s[k])
  {
    if !IsDna(s) {
      var k := FirstInvalid(s);
      assert !IsNucleotide(s[k]) && IsDna(s[..k]);
    }
  }

  function Upper(c: char): char {
    if 'a' <= c <= 'z' then (c as int - 32) as char else c
  }

  function Lower(c: char): char {
    if 'A' <= c <= 'Z' then (c as int + 32) as char else c
  }

  function UpperString(s: string): (u: string)
    ensures |u| == |s|
  {
    seq(|s|, k requires 0 <= k < |s| => Upper(s[k]))
  }

  function LowerString(s: string): (u: string)
    ensures |u| == |s|
  {
    seq(|s|, k requires 0 <= k < |s| => Lower(s[k]))
  }

  lemma UpperLowerRow(c: char)
    ensures IsNucleotide(Upper(c)) <==> IsNucleotide(c)
    ensures IsNucleotide(Lower(c)) <==> IsNucleotide(c)
    ensures IsNucleotide(c) ==> RowFor(Upper(c)) == RowFor(c) == RowFor(Lower(c))
  {
  }

  /** The encoder ignores case: a string, its upper-case and its lower-case
      forms are accepted alike and encode to the same rows. */
  lemma OneHotIgnoresCase(s: string)
    ensures OneHot(UpperString(s)).Ok? <==> OneHot(s).Ok?
    ensures OneHot(LowerString(s)).Ok? <==> OneHot(s).Ok?
    ensures OneHot(s).Ok? ==>
      OneHot(UpperString(s)).value == OneHot(s).value == OneHot(LowerString(s)).value
  {
    forall k | 0 <= k < |s| {
      UpperLowerRow(s[k]);
    }
    assert IsDna(UpperString(s)) <==> IsDna(s) by {
      if IsDna(s) {
        assert forall k :: 0 <= k < |s| ==> IsNucleotide(UpperString(s)[k]);
      }
      if IsDna(UpperString(s)) {
        assert forall k :: 0 <= k < |s| ==> IsNucleotide(s[k]) by {
          forall k | 0 <= k < |s| ensures IsNucleotide(s[k]) {
            assert IsNucleotide(UpperString(s)[k]);
          }
        }
      }
    }
    assert IsDna(LowerString(s)) <==> IsDna(s) by {
      if IsDna(s) {
        assert forall k :: 0 <= k < |s| ==> IsNucleotide(LowerString(s)[k]);
      }
      if IsDna(LowerString(s)) {
        assert forall k :: 0 <= k < |s| ==> IsNucleotide(s[k]) by {
          forall k | 0 <= k < |s| ensures IsNucleotide(s[k]) {
            assert IsNucleotide(LowerString(s)[k]);
          }
        }
      }
    }
  }
}
