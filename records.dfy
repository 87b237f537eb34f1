/**
 * The canonical key of an extracted record, the text that is both written
 * to an output file and compared against the keys already seen.
 */
module Records {
  import opened Wrappers
  import opened Text

  /** How an f-string renders a field: a missing one as the text `None`. */
  function Render(f: Option<string>): string
  {
    match f
    case None => "None"
    case Some(s) => s
  }

  /**
   * The rendered name, phone, email and website joined by commas, in that
   * order, bracketed from the right so that each field is followed by the
   * rest of the key.
   */
  function Key(name: Option<string>, phone: Option<string>, email: Option<string>, website: Option<string>): string
  {
    Render(name) + ("," + (Render(phone) + ("," + (Render(email) + ("," + Render(website))))))
  }

  /** Splitting on a separator peels off the text before its first occurrence. */
  lemma {:induction false} SplitAfter(a: string, c: char, b: string)
    requires c !in a
    ensures SplitOn(a + ([c] + b), c) == [a] + SplitOn(b, c)
    decreases |a|
  {
    if a == [] {
      assert a + ([c] + b) == [c] + b;
      assert ([c] + b)[1..] == b;
    } else {
      SplitAfter(a[1..], c, b);
      assert (a + ([c] + b))[1..] == a[1..] + ([c] + b);
      assert [a[0]] + a[1..] == a;
    }
  }

  /** A text without the separator splits into itself. */
  lemma {:induction false} SplitWhole(a: string, c: char)
    requires c !in a
    ensures SplitOn(a, c) == [a]
    decreases |a|
  {
    if a != [] {
      SplitWhole(a[1..], c);
      assert [a[0]] + a[1..] == a;
    }
  }

  /** When no field renders with a comma, splitting the key on commas gives the four fields back. */
  lemma KeySplits(name: Option<string>, phone: Option<string>, email: Option<string>, website: Option<string>)
    requires ',' !in Render(name) && ',' !in Render(phone) && ',' !in Render(email) && ',' !in Render(website)
    ensures SplitOn(Key(name, phone, email, website), ',') ==
      [Render(name), Render(phone), Render(email), Render(website)]
  {
    var n, p, e, w := Render(name), Render(phone), Render(email), Render(website);
    SplitWhole(w, ',');
    SplitAfter(e, ',', w);
    SplitAfter(p, ',', e + ("," + w));
    SplitAfter(n, ',', p + ("," + (e + ("," + w))));
  }

  /**
   * Two records with comma-free fields share a key exactly when every field
   * renders the same; a missing field and the text `None` render the same.
   */
  lemma KeyInjective(n1: Option<string>, p1: Option<string>, e1: Option<string>, w1: Option<string>,
                     n2: Option<string>, p2: Option<string>, e2: Option<string>, w2: Option<string>)
    requires ',' !in Render(n1) && ',' !in Render(p1) && ',' !in Render(e1) && ',' !in Render(w1)
    requires ',' !in Render(n2) && ',' !in Render(p2) && ',' !in Render(e2) && ',' !in Render(w2)
    ensures Key(n1, p1, e1, w1) == Key(n2, p2, e2, w2) <==>
      Render(n1) == Render(n2) && Render(p1) == Render(p2) && Render(e1) == Render(e2) && Render(w1) == Render(w2)
  {
    KeySplits(n1, p1, e1, w1);
    KeySplits(n2, p2, e2, w2);
  }

  lemma PrefixCancel(a: string, x: string, y: string)
    requires a + x == a + y
    ensures x == y
  {
    assert x == (a + x)[|a|..];
  }

  lemma SuffixCancel(x: string, y: string, b: string)
    requires x + b == y + b
    ensures x == y
  {
    assert x == (x + b)[..|x|];
    assert y == (y + b)[..|y|];
  }

  /**
   * Changing any one field, the others held fixed, changes the key unless the
   * two values render alike; commas in the values do not matter here.
   */
  lemma KeyChangesWithOneField(n: Option<string>, p: Option<string>, e: Option<string>, w: Option<string>, x: Option<string>)
    ensures Render(x) != Render(n) ==> Key(x, p, e, w) != Key(n, p, e, w)
    ensures Render(x) != Render(p) ==> Key(n, x, e, w) != Key(n, p, e, w)
    ensures Render(x) != Render(e) ==> Key(n, p, x, w) != Key(n, p, e, w)
    ensures Render(x) != Render(w) ==> Key(n, p, e, x) != Key(n, p, e, w)
  {
    var N, P, E, W, X := Render(n), Render(p), Render(e), Render(w), Render(x);
    if Key(x, p, e, w) == Key(n, p, e, w) {
      SuffixCancel(X, N, "," + (P + ("," + (E + ("," + W)))));
    }
    if Key(n, x, e, w) == Key(n, p, e, w) {
      PrefixCancel(N, "," + (X + ("," + (E + ("," + W)))), "," + (P + ("," + (E + ("," + W)))));
      PrefixCancel(",", X + ("," + (E + ("," + W))), P + ("," + (E + ("," + W))));
      SuffixCancel(X, P, "," + (E + ("," + W)));
    }
    if Key(n, p, x, w) == Key(n, p, e, w) {
      PrefixCancel(N, "," + (P + ("," + (X + ("," + W)))), "," + (P + ("," + (E + ("," + W)))));
      PrefixCancel(",", P + ("," + (X + ("," + W))), P + ("," + (E + ("," + W))));
      PrefixCancel(P, "," + (X + ("," + W)), "," + (E + ("," + W)));
      PrefixCancel(",", X + ("," + W), E + ("," + W));
      SuffixCancel(X, E, "," + W);
    }
    if Key(n, p, e, x) == Key(n, p, e, w) {
      PrefixCancel(N, "," + (P + ("," + (E + ("," + X)))), "," + (P + ("," + (E + ("," + W)))));
      PrefixCancel(",", P + ("," + (E + ("," + X))), P + ("," + (E + ("," + W))));
      PrefixCancel(P, "," + (E + ("," + X)), "," + (E + ("," + W)));
      PrefixCancel(",", E + ("," + X), E + ("," + W));
      PrefixCancel(E, "," + X, "," + W);
      PrefixCancel(",", X, W);
    }
  }

  /** Two different records that the key cannot tell apart. */
  lemma KeyCollisions(p: Option<string>, e: Option<string>, w: Option<string>)
    ensures Key(None, p, e, w) == Key(Some("None"), p, e, w)
    ensures Key(Some("a,b"), Some("c"), e, w) == Key(Some("a"), Some("b,c"), e, w)
  {
    var t := "," + (Render(e) + ("," + Render(w)));
    calc {
      Key(Some("a,b"), Some("c"), e, w);
      "a,b" + ("," + ("c" + t));
      { assert "," + ("c" + t) == ",c" + t; }
      "a,b" + (",c" + t);
      { assert "a,b" + (",c" + t) == "a,b,c" + t; }
      "a,b,c" + t;
      { assert "a" + (",b,c" + t) == "a,b,c" + t; }
      "a" + (",b,c" + t);
      { assert "," + ("b,c" + t) == ",b,c" + t; }
      "a" + ("," + ("b,c" + t));
      Key(Some("a"), Some("b,c"), e, w);
    }
  }
}
