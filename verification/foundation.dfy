// What several modules share: options, trimming, callbacks and byte buffers.

module Options {
  datatype Option<+T> = None | Some(value: T)
}

// First-match searches: std::find and std::string::find for one character.
module Searching {
  /** The first index of c in s[from..to], or `to`. */
  function Find(s: string, from: nat, to: nat, c: char): (i: nat)
    requires from <= to <= |s|
    ensures from <= i <= to
    ensures forall j :: from <= j < i ==> s[j] != c
    ensures i < to ==> s[i] == c
    decreases |s| - from
  {
    if from == to || s[from] == c then from else Find(s, from + 1, to, c)
  }
}

// Parts of a text.
module Slices {
  /** The text from i up to j. */
  function Slice(s: string, i: nat, j: nat): (r: string)
    requires i <= j <= |s|
    ensures |r| == j - i
  {
    if i == 0 then s[..j] else s[i..j]
  }

  /** The text without its first n characters, as std::string::erase leaves it. */
  function Erased(s: string, n: nat): (r: string)
    requires n <= |s|
    ensures |r| == |s| - n
  {
    if n == 0 then s else s[n..]
  }

  lemma ErasedStep(s: string, n: nat)
    requires n < |s|
    ensures Erased(s, n)[0] == s[n] && Erased(s, n)[1..] == Erased(s, n + 1)
  {
  }

  lemma ErasedRest(s: string, n: nat)
    requires n <= |s|
    ensures s[..n] + Erased(s, n) == s
  {
  }

  lemma MiddleSlice(s: string, a: string, b: string, c: string)
    requires s == (a + b) + c
    ensures Slice(s, |a|, |a| + |b|) == b
  {
  }

  lemma SliceWithout(s: string, i: nat, j: nat, c: char)
    requires i <= j <= |s| && forall k :: i <= k < j ==> s[k] != c
    ensures c !in Slice(s, i, j)
  {
    assert forall k :: 0 <= k < j - i ==> Slice(s, i, j)[k] == s[i + k];
  }

  lemma SliceStart(s: string, i: nat, j: nat)
    requires i < j <= |s|
    ensures Slice(s, i, j)[0] == s[i]
  {
  }

  lemma SliceConcat(s: string, i: nat, j: nat, k: nat)
    requires i <= j <= k <= |s|
    ensures Slice(s, i, j) + Slice(s, j, k) == Slice(s, i, k)
  {
  }
}

// boost::trim with the classic locale.
module Trimming {
  predicate IsSpace(c: char) {
    c == ' ' || c == '\t' || c == '\n' || c == '\r' || c == '\U{b}' || c == '\U{c}'
  }

  function TrimLeft(s: string): string {
    if s != [] && IsSpace(s[0]) then TrimLeft(s[1..]) else s
  }

  function TrimRight(s: string): string {
    if s != [] && IsSpace(s[|s| - 1]) then TrimRight(s[..|s| - 1]) else s
  }

  function Trim(s: string): string {
    TrimLeft(TrimRight(s))
  }

  predicate AllSpace(s: string) {
    forall i :: 0 <= i < |s| ==> IsSpace(s[i])
  }

  lemma {:induction false} TrimRightLaw(s: string) returns (after: string)
    ensures s == TrimRight(s) + after && AllSpace(after)
    ensures TrimRight(s) != [] ==> !IsSpace(TrimRight(s)[|TrimRight(s)| - 1])
  {
    if s != [] && IsSpace(s[|s| - 1]) {
      var rest := TrimRightLaw(s[..|s| - 1]);
      after := rest + [s[|s| - 1]];
    } else {
      after := [];
    }
  }

  lemma {:induction false} TrimLeftLaw(s: string) returns (before: string)
    ensures s == before + TrimLeft(s) && AllSpace(before)
    ensures TrimLeft(s) != [] ==> !IsSpace(TrimLeft(s)[0]) && TrimLeft(s)[|TrimLeft(s)| - 1] == s[|s| - 1]
  {
    if s != [] && IsSpace(s[0]) {
      var rest := TrimLeftLaw(s[1..]);
      before := [s[0]] + rest;
    } else {
      before := [];
    }
  }

  /** Trimming takes whitespace, and all of it, off both ends. */
  lemma TrimLaw(s: string) returns (before: string, after: string)
    ensures s == before + Trim(s) + after && AllSpace(before) && AllSpace(after)
    ensures Trim(s) != [] ==> !IsSpace(Trim(s)[0]) && !IsSpace(Trim(s)[|Trim(s)| - 1])
  {
    after := TrimRightLaw(s);
    before := TrimLeftLaw(TrimRight(s));
  }

  /** The whitespace taken off an end is all of it, so what is left of a text that is put together from a blank
      and something that does not begin with whitespace is the latter. */
  lemma {:induction false} TrimLeftOf(blank: string, s: string)
    requires AllSpace(blank) && (s == [] || !IsSpace(s[0]))
    ensures TrimLeft(blank + s) == s
  {
    if blank == [] {
      assert blank + s == s;
    } else {
      assert (blank + s)[1..] == blank[1..] + s;
      TrimLeftOf(blank[1..], s);
    }
  }

  lemma {:induction false} TrimRightOf(s: string, blank: string)
    requires AllSpace(blank) && (s == [] || !IsSpace(s[|s| - 1]))
    ensures TrimRight(s + blank) == s
  {
    if blank == [] {
      assert s + blank == s;
    } else {
      var n := |blank| - 1;
      assert (s + blank)[..|s| + n] == s + blank[..n];
      TrimRightOf(s, blank[..n]);
    }
  }

  /** Trimming one end never gets past a character that is not whitespace. */
  lemma {:induction false} TrimRightKeeps(s: string, i: nat)
    requires i < |s| && !IsSpace(s[i])
    ensures i < |TrimRight(s)| <= |s| && TrimRight(s) == s[..|TrimRight(s)|]
  {
    if IsSpace(s[|s| - 1]) {
      TrimRightKeeps(s[..|s| - 1], i);
    }
  }

  lemma {:induction false} TrimLeftKeeps(s: string, i: nat)
    requires i < |s| && !IsSpace(s[i])
    ensures |s| - i <= |TrimLeft(s)| <= |s| && TrimLeft(s) == s[|s| - |TrimLeft(s)|..]
  {
    if IsSpace(s[0]) {
      TrimLeftKeeps(s[1..], i - 1);
    }
  }

  /** Trimming leaves a text that has no whitespace at its ends. */
  lemma TrimOf(before: string, s: string, after: string)
    requires AllSpace(before) && AllSpace(after) && s != [] && !IsSpace(s[0]) && !IsSpace(s[|s| - 1])
    ensures Trim(before + s + after) == s
  {
    assert (before + s)[|before + s| - 1] == s[|s| - 1];
    TrimRightOf(before + s, after);
    TrimLeftOf(before, s);
  }

  /** These six characters are whitespace, and no other. */
  lemma WhitespaceExactly(c: char)
    ensures Trim([c]) == [] <==> c in " \t\n\r\U{b}\U{c}"
  {
    BlankExactly([c]);
  }

  /** Trimming leaves nothing exactly of blank text. */
  lemma BlankExactly(s: string)
    ensures Trim(s) == [] <==> AllSpace(s)
  {
    var before, after := TrimLaw(s);
    if Trim(s) != [] {
      assert s[|before|] == Trim(s)[0];
    }
  }
}

// What has happened so far, the latest last.
module Histories {
  datatype History<T> = Beginning | Then(before: History<T>, last: T)
}

// Callbacks that are handed items one by one until they refuse.
module Callbacks {
  /** What a callback has been handed after being offered `items`, up to and including the first item it
      refuses; `before` is what it had been handed already. */
  function Taken<T>(accept: seq<T> -> bool, before: seq<T>, items: seq<T>): seq<T>
    decreases items
  {
    if items == [] then before
    else
      var now := before + [items[0]];
      if accept(now) then Taken(accept, now, items[1..]) else now
  }

  predicate Refused<T>(accept: seq<T> -> bool, before: seq<T>, items: seq<T>)
    decreases items
  {
    items != [] &&
    var now := before + [items[0]];
    (accept(now) ==> Refused(accept, now, items[1..]))
  }

  lemma {:induction false} TakenConcat<T>(accept: seq<T> -> bool, before: seq<T>, a: seq<T>, b: seq<T>)
    ensures Taken(accept, before, a + b) ==
            if Refused(accept, before, a) then Taken(accept, before, a)
            else Taken(accept, Taken(accept, before, a), b)
    ensures Refused(accept, before, a + b) <==>
            Refused(accept, before, a) || Refused(accept, Taken(accept, before, a), b)
    decreases a
  {
    if a == [] {
      assert a + b == b;
    } else {
      assert (a + b)[1..] == a[1..] + b;
      TakenConcat(accept, before + [a[0]], a[1..], b);
    }
  }

  /** The callback is handed a prefix of the offered items: every proper prefix of it was accepted, and
      it is cut short only by a refusal of its last item. */
  lemma {:induction false} TakenIsPrefix<T>(accept: seq<T> -> bool, before: seq<T>, items: seq<T>)
    returns (k: nat)
    ensures k <= |items| && Taken(accept, before, items) == before + items[..k]
    ensures forall j :: 0 < j < k ==> accept(before + items[..j])
    ensures Refused(accept, before, items) <==> 0 < k && !accept(before + items[..k])
    ensures !Refused(accept, before, items) ==> k == |items|
    decreases items
  {
    if items == [] {
      k := 0;
      assert before + items[..0] == before;
    } else {
      var now := before + [items[0]];
      assert now == before + items[..1];
      if accept(now) {
        var m := TakenIsPrefix(accept, now, items[1..]);
        k := m + 1;
        forall j | 0 <= j <= m
          ensures now + items[1..][..j] == before + items[..j + 1]
        {
        }
        assert forall j :: 1 < j < k ==> now + items[1..][..j - 1] == before + items[..j];
      } else {
        k := 1;
      }
    }
  }

  /** A callback that never refuses is handed everything. */
  lemma {:induction false} TakenAll<T>(accept: seq<T> -> bool, before: seq<T>, items: seq<T>)
    requires forall h :: accept(h)
    ensures Taken(accept, before, items) == before + items && !Refused(accept, before, items)
    decreases items
  {
    if items != [] {
      TakenAll(accept, before + [items[0]], items[1..]);
      assert (before + [items[0]]) + items[1..] == before + items;
    }
  }
}

// Buffers of bytes that cross a pipe.
module Buffers {
  type Positive = n: nat | n > 0 witness 1

  /** The size of the buffers that are read into. */
  const CHUNK: nat := 4096

  function Min(a: nat, b: nat): nat {
    if a < b then a else b
  }

  /** std::string::resize. */
  function Resized(s: string, n: nat): (r: string)
    ensures |r| == n
  {
    if n <= |s| then s[..n] else s + seq(n - |s|, _ => '\0')
  }
}
