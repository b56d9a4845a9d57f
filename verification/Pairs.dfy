/** Currency pairs, stored as one string such as "USD/RUB". */
module Pairs {

  /** boost::split with is_any_of("/") and no token compression. */
  function Split(s: string): (pieces: seq<string>)
    ensures |pieces| >= 1
  {
    if s == "" then [""]
    else
      var rest := Split(s[1..]);
      if s[0] == '/' then [""] + rest else [[s[0]] + rest[0]] + rest[1..]
  }

  function Join(pieces: seq<string>): string
    requires |pieces| >= 1
  {
    if |pieces| == 1 then pieces[0] else pieces[0] + "/" + Join(pieces[1..])
  }

  ghost predicate Plain(pieces: seq<string>) {
    forall i :: 0 <= i < |pieces| ==> '/' !in pieces[i]
  }

  lemma JoinPrepends(c: char, pieces: seq<string>)
    requires |pieces| >= 1
    ensures Join([[c] + pieces[0]] + pieces[1..]) == [c] + Join(pieces)
  {
    var more := [[c] + pieces[0]] + pieces[1..];
    if |pieces| > 1 {
      assert more[1..] == pieces[1..];
      Prepended(c, pieces[0], "/", Join(pieces[1..]));
    }
  }

  lemma Prepended(c: char, s: string, t: string, u: string)
    ensures [c] + s + t + u == [c] + (s + t + u)
  {
  }

  /** Nothing of the string is lost, and no piece keeps a separator. */
  lemma {:induction false} SplitLosesNothing(s: string)
    ensures Plain(Split(s)) && Join(Split(s)) == s
  {
    if s == "" {
    } else {
      var rest := Split(s[1..]);
      SplitLosesNothing(s[1..]);
      assert s == [s[0]] + s[1..];
      if s[0] == '/' {
        assert ([""] + rest)[1..] == rest;
      } else {
        JoinPrepends(s[0], rest);
      }
    }
  }

  /** Any pieces without a separator are what splitting their join gives back. */
  lemma {:induction false} SplitOfJoin(pieces: seq<string>)
    requires |pieces| >= 1 && Plain(pieces)
    ensures Split(Join(pieces)) == pieces
    decreases |pieces|, |pieces[0]|
  {
    var s := Join(pieces);
    if pieces[0] == "" {
      if |pieces| > 1 {
        SplitOfJoin(pieces[1..]);
        assert s[1..] == Join(pieces[1..]);
        assert pieces == [""] + pieces[1..];
      }
    } else {
      var less := [pieces[0][1..]] + pieces[1..];
      assert forall i :: 1 <= i < |less| ==> less[i] == pieces[i];
      SplitOfJoin(less);
      assert less[1..] == pieces[1..];
      assert s[1..] == Join(less);
      assert s[0] == pieces[0][0] && pieces[0][0] in pieces[0];
      assert pieces[0] == [s[0]] + less[0];
      assert pieces == [pieces[0]] + pieces[1..];
    }
  }

  /** currencies[0] and currencies[1] exist. */
  predicate IsPair(currency: string) {
    |Split(currency)| >= 2
  }

  function Base(currency: string): string {
    Split(currency)[0]
  }

  /** Only ever used of a pair. */
  function Quote(currency: string): string {
    if IsPair(currency) then Split(currency)[1] else ""
  }

  const USD_RUB := "USD/RUB"

  lemma UsdRub()
    ensures IsPair(USD_RUB) && Base(USD_RUB) == "USD" && Quote(USD_RUB) == "RUB"
  {
  }
}
