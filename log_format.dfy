/**
 * `logutils::format` (hybrid/utils/log_utils.h): a formatted message is put
 * behind the caller's rank prefix, one trailing newline is set aside, every
 * remaining newline gets the prefix after it, and the trailing newline is put
 * back. The `fmt` formatting of the message itself happens before and is an
 * input here.
 */
module LogFormat {
  import opened Wrappers

  /** `fmt::format("{}", n)` for a non-negative integer. */
  function Digits(n: nat): (s: string)
    ensures |s| >= 1
    ensures forall i :: 0 <= i < |s| ==> '0' <= s[i] <= '9'
  {
    var d := [(n % 10) as char + '0'];
    if n < 10 then d else Digits(n / 10) + d
  }

  /** The number a string of decimal digits denotes. */
  function Value(s: string): nat
    requires forall i :: 0 <= i < |s| ==> '0' <= s[i] <= '9'
  {
    if s == [] then 0
    else Value(s[..|s| - 1]) * 10 + (s[|s| - 1] - '0') as nat
  }

  lemma {:induction false} DigitsValue(n: nat)
    ensures Value(Digits(n)) == n
  {
    var s := Digits(n);
    if n >= 10 {
      DigitsValue(n / 10);
      assert s[..|s| - 1] == Digits(n / 10);
    }
  }

  function Spaces(k: nat): (s: string)
    ensures |s| == k && forall i :: 0 <= i < k ==> s[i] == ' '
  {
    seq(k, _ => ' ')
  }

  /** `{: ^width}`: centred in spaces, the odd space going to the right. */
  function Centre(s: string, width: nat): (r: string)
    ensures |r| == if |s| >= width then |s| else width
    ensures exists left: nat, right: nat :: left <= right <= left + 1 && r == Spaces(left) + s + Spaces(right)
  {
    var pad := if |s| >= width then 0 else width - |s|;
    var left := pad / 2;
    var r := Spaces(left) + s + Spaces(pad - left);
    assert left <= pad - left <= left + 1;
    r
  }

  /** `fmt::format("[RANK {: ^4}] ", rank)`. */
  function RankPrefix(rank: nat): (p: string)
    ensures '\n' !in p && '$' !in p
    ensures |p| >= 12
    ensures rank < 10000 ==> |p| == 12
    ensures p[..6] == "[RANK " && p[|p| - 2..] == "] "
  {
    var c := Centre(Digits(rank), 4);
    assert '\n' !in c && '$' !in c by {
      var left: nat, right: nat :| c == Spaces(left) + Digits(rank) + Spaces(right);
      forall i | 0 <= i < |c|
        ensures c[i] != '\n' && c[i] != '$'
      {
        if i < left {
        } else if i < left + |Digits(rank)| {
          assert c[i] == Digits(rank)[i - left];
        } else {
          assert c[i] == Spaces(right)[i - left - |Digits(rank)|];
        }
      }
    }
    assert rank < 10000 ==> |Digits(rank)| <= 4 by {
      if rank < 10000 {
        assert Pow10(4) == 10000;
        DigitsBelow(rank, 4);
      }
    }
    "[RANK " + c + "] "
  }

  function Pow10(k: nat): nat
  {
    if k == 0 then 1 else 10 * Pow10(k - 1)
  }

  /** A number below `10^k` has at most `k` digits. */
  lemma {:induction false} DigitsBelow(n: nat, k: nat)
    requires k >= 1 && n < Pow10(k)
    ensures |Digits(n)| <= k
  {
    if n >= 10 {
      assert k >= 2;
      assert n / 10 < Pow10(k - 1);
      DigitsBelow(n / 10, k - 1);
    }
  }

  /** `regex_replace(s, "\n", "\n" + prefix)`, with the replacement taken
      literally: every newline is followed by a copy of the prefix. */
  function Replace(s: string, prefix: string): (r: string)
    ensures |r| == |s| + CountNewlines(s) * |prefix|
  {
    if s == [] then []
    else (if s[0] == '\n' then "\n" + prefix else [s[0]]) + Replace(s[1..], prefix)
  }

  /** `logutils::format` behind `prefix`: one trailing newline of the
      prefixed message is set aside and put back after the rewriting, so the
      output ends with a newline exactly when the prefixed message does. */
  function Format(prefix: string, msg: string): (r: string)
    ensures EndsWithNewline(r) <==> EndsWithNewline(prefix + msg)
  {
    var s := prefix + msg;
    if |s| > 0 && s[|s| - 1] == '\n' then Replace(s[..|s| - 1], prefix) + "\n"
    else if s == [] then Replace(s, prefix)
    else ReplaceLast(s, prefix); Replace(s, prefix)
  }

  function CountNewlines(s: string): nat
  {
    if s == [] then 0 else (if s[0] == '\n' then 1 else 0) + CountNewlines(s[1..])
  }

  predicate EndsWithNewline(s: string)
  {
    |s| > 0 && s[|s| - 1] == '\n'
  }

  lemma {:induction false} ReplaceAppend(a: string, b: string, prefix: string)
    ensures Replace(a + b, prefix) == Replace(a, prefix) + Replace(b, prefix)
  {
    if a != [] {
      assert (a + b)[0] == a[0];
      assert (a + b)[1..] == a[1..] + b;
      ReplaceAppend(a[1..], b, prefix);
      var head := if a[0] == '\n' then "\n" + prefix else [a[0]];
      assert Replace(a + b, prefix) == head + (Replace(a[1..], prefix) + Replace(b, prefix));
      assert Replace(a, prefix) == head + Replace(a[1..], prefix);
      assert head + (Replace(a[1..], prefix) + Replace(b, prefix))
        == (head + Replace(a[1..], prefix)) + Replace(b, prefix);
    } else {
      assert a + b == b;
    }
  }

  lemma {:induction false} ReplaceNoNewline(s: string, prefix: string)
    requires '\n' !in s
    ensures Replace(s, prefix) == s
  {
    if s != [] {
      assert s == [s[0]] + s[1..];
      ReplaceNoNewline(s[1..], prefix);
    }
  }

  lemma {:induction false} CountAppend(a: string, b: string)
    ensures CountNewlines(a + b) == CountNewlines(a) + CountNewlines(b)
  {
    if a != [] {
      assert (a + b)[0] == a[0];
      assert (a + b)[1..] == a[1..] + b;
      CountAppend(a[1..], b);
      assert CountNewlines(a + b) == (if a[0] == '\n' then 1 else 0) + CountNewlines(a[1..] + b);
    } else {
      assert a + b == b;
    }
  }

  lemma {:induction false} CountNone(s: string)
    requires '\n' !in s
    ensures CountNewlines(s) == 0
  {
    if s != [] {
      assert s == [s[0]] + s[1..];
      CountNone(s[1..]);
    }
  }

  /** Replacing adds no newline and removes none, as long as the prefix has
      none of its own. */
  lemma {:induction false} ReplaceCount(s: string, prefix: string)
    requires '\n' !in prefix
    ensures CountNewlines(Replace(s, prefix)) == CountNewlines(s)
  {
    if s != [] {
      var head := if s[0] == '\n' then "\n" + prefix else [s[0]];
      ReplaceCount(s[1..], prefix);
      CountAppend(head, Replace(s[1..], prefix));
      if s[0] == '\n' {
        CountAppend("\n", prefix);
        CountNone(prefix);
      }
    }
  }

  /** The last character is kept unless it is a newline. */
  lemma ReplaceLast(s: string, prefix: string)
    requires |s| > 0 && s[|s| - 1] != '\n'
    ensures EndsWithNewline(Replace(s, prefix)) == false
  {
    var init := s[..|s| - 1];
    assert s == init + [s[|s| - 1]];
    ReplaceAppend(init, [s[|s| - 1]], prefix);
    assert Replace([s[|s| - 1]], prefix) == [s[|s| - 1]];
  }

  /** How the prefixed message splits: with a newline-free prefix, the
      prefixed text ends with a newline exactly when the message does. */
  lemma FormatShape(prefix: string, msg: string)
    requires '\n' !in prefix
    ensures EndsWithNewline(msg) ==> Format(prefix, msg) == prefix + Replace(msg[..|msg| - 1], prefix) + "\n"
    ensures !EndsWithNewline(msg) ==> Format(prefix, msg) == prefix + Replace(msg, prefix)
  {
    var s := prefix + msg;
    ReplaceNoNewline(prefix, prefix);
    if EndsWithNewline(msg) {
      assert s[..|s| - 1] == prefix + msg[..|msg| - 1];
      ReplaceAppend(prefix, msg[..|msg| - 1], prefix);
    } else {
      if msg == [] && |prefix| > 0 {
        assert prefix[|prefix| - 1] in prefix;
      }
      ReplaceAppend(prefix, msg, prefix);
    }
  }

  /** The output starts with the prefix and carries exactly the newlines of
      the message; it ends with a newline exactly when the message does. */
  lemma FormatNewlines(prefix: string, msg: string)
    requires '\n' !in prefix
    ensures prefix <= Format(prefix, msg)
    ensures CountNewlines(Format(prefix, msg)) == CountNewlines(msg)
    ensures EndsWithNewline(Format(prefix, msg)) <==> EndsWithNewline(msg)
  {
    FormatShape(prefix, msg);
    CountNone(prefix);
    if EndsWithNewline(msg) {
      var body := msg[..|msg| - 1];
      assert msg == body + "\n";
      CountAppend(body, "\n");
      ReplaceCount(body, prefix);
      CountAppend(prefix, Replace(body, prefix));
      CountAppend(prefix + Replace(body, prefix), "\n");
    } else {
      ReplaceCount(msg, prefix);
      CountAppend(prefix, Replace(msg, prefix));
      if msg != [] {
        ReplaceLast(msg, prefix);
        assert Replace(msg, prefix) != [];
        assert (prefix + Replace(msg, prefix))[|prefix + Replace(msg, prefix)| - 1]
          == Replace(msg, prefix)[|Replace(msg, prefix)| - 1];
      } else if |prefix| > 0 {
        assert prefix[|prefix| - 1] in prefix;
      }
    }
  }

  /** Every newline of `t` is followed by `prefix`, except possibly a newline
      at the very end. */
  ghost predicate PrefixedAfterNewlines(t: string, prefix: string)
  {
    forall i :: 0 <= i < |t| - 1 && t[i] == '\n' ==> prefix <= t[i + 1..]
  }

  /** Every newline of `t` is followed by `prefix`. */
  ghost predicate AllPrefixed(t: string, prefix: string)
  {
    forall i :: 0 <= i < |t| && t[i] == '\n' ==> prefix <= t[i + 1..]
  }

  lemma {:induction false} ReplacePrefixed(s: string, prefix: string)
    requires '\n' !in prefix
    ensures AllPrefixed(Replace(s, prefix), prefix)
  {
    if s != [] {
      var r := Replace(s, prefix);
      var head := if s[0] == '\n' then "\n" + prefix else [s[0]];
      var rest := Replace(s[1..], prefix);
      ReplacePrefixed(s[1..], prefix);
      assert r == head + rest;
      forall i | 0 <= i < |r| && r[i] == '\n'
        ensures prefix <= r[i + 1..]
      {
        if i < |head| {
          if s[0] == '\n' {
            assert r[1..] == prefix + rest;
          }
        } else {
          assert r[i] == rest[i - |head|];
          assert r[i + 1..] == rest[i - |head| + 1..];
        }
      }
    }
  }

  /** Putting a newline-free prefix in front and at most a newline behind
      keeps every newline but a final one followed by the prefix. */
  lemma PrefixedFrame(prefix: string, r: string, tail: string)
    requires '\n' !in prefix && AllPrefixed(r, prefix)
    requires tail == "" || tail == "\n"
    ensures PrefixedAfterNewlines(prefix + r + tail, prefix)
  {
    var out := prefix + r + tail;
    forall i | 0 <= i < |out| - 1 && out[i] == '\n'
      ensures prefix <= out[i + 1..]
    {
      if |prefix| <= i {
        var j := i - |prefix|;
        assert j < |r|;
        assert out[i] == r[j];
        assert out[i + 1..] == r[j + 1..] + tail;
      }
    }
  }

  /** Every newline of the output other than a final trailing one is followed
      by the prefix. */
  lemma FormatPrefixesLines(prefix: string, msg: string)
    requires '\n' !in prefix
    ensures PrefixedAfterNewlines(Format(prefix, msg), prefix)
  {
    FormatShape(prefix, msg);
    if EndsWithNewline(msg) {
      ReplacePrefixed(msg[..|msg| - 1], prefix);
      PrefixedFrame(prefix, Replace(msg[..|msg| - 1], prefix), "\n");
    } else {
      ReplacePrefixed(msg, prefix);
      PrefixedFrame(prefix, Replace(msg, prefix), "");
      assert prefix + Replace(msg, prefix) + "" == prefix + Replace(msg, prefix);
    }
  }

  /** Undoing the rewrite after the leading prefix: every newline that is not
      the last character must be followed by the prefix, which is dropped. */
  function Strip(t: string, prefix: string): Option<string>
    decreases |t|
  {
    if t == [] then Some([])
    else if t[0] != '\n' then
      match Strip(t[1..], prefix)
      case Some(rest) => Some([t[0]] + rest)
      case None => None
    else if |t| == 1 then Some("\n")
    else if prefix <= t[1..] then
      match Strip(t[1 + |prefix|..], prefix)
      case Some(rest) => Some("\n" + rest)
      case None => None
    else None
  }

  /** Recover a message from formatted output: the leading prefix is removed,
      then the prefix after each newline. */
  function Unformat(prefix: string, out: string): Option<string>
  {
    if prefix <= out then Strip(out[|prefix|..], prefix) else None
  }

  lemma StripChar(c: char, rest: string, prefix: string)
    requires c != '\n'
    ensures Strip([c] + rest, prefix) ==
      match Strip(rest, prefix) case Some(r) => Some([c] + r) case None => None
  {
    assert ([c] + rest)[1..] == rest;
  }

  lemma StripNewline(prefix: string, rest: string)
    requires prefix + rest != []
    ensures Strip("\n" + prefix + rest, prefix) ==
      match Strip(rest, prefix) case Some(r) => Some("\n" + r) case None => None
  {
    var t := "\n" + prefix + rest;
    assert t[1..] == prefix + rest;
    assert t[1 + |prefix|..] == rest;
  }

  lemma {:induction false} StripReplace(x: string, tail: string, prefix: string)
    requires tail == "" || tail == "\n"
    ensures Strip(Replace(x, prefix) + tail, prefix) == Some(x + tail)
  {
    if x == [] {
      assert Replace(x, prefix) + tail == tail;
    } else {
      StripReplace(x[1..], tail, prefix);
      var rest := Replace(x[1..], prefix) + tail;
      assert x + tail == [x[0]] + (x[1..] + tail);
      if x[0] != '\n' {
        assert Replace(x, prefix) + tail == [x[0]] + rest;
        StripChar(x[0], rest, prefix);
      } else if prefix + rest == [] {
        assert Replace(x, prefix) + tail == "\n";
        assert x[1..] + tail == [];
        assert [x[0]] + (x[1..] + tail) == "\n";
        assert Strip("\n", prefix) == Some("\n");
      } else {
        assert Replace(x, prefix) + tail == "\n" + prefix + rest;
        StripNewline(prefix, rest);
      }
    }
  }

  /** Removing the prefixes again gives back the message. */
  lemma FormatRoundTrip(prefix: string, msg: string)
    requires '\n' !in prefix
    ensures Unformat(prefix, Format(prefix, msg)) == Some(msg)
  {
    FormatShape(prefix, msg);
    var out := Format(prefix, msg);
    if EndsWithNewline(msg) {
      var body := msg[..|msg| - 1];
      assert out[|prefix|..] == Replace(body, prefix) + "\n";
      StripReplace(body, "\n", prefix);
      assert body + "\n" == msg;
    } else {
      assert out[|prefix|..] == Replace(msg, prefix) + "";
      StripReplace(msg, "", prefix);
      assert msg + "" == msg;
    }
  }

  /** Rank 3 is centred in four columns, the odd space to the right. */
  lemma RankThreePrefix()
    ensures RankPrefix(3) == "[RANK  3  ] "
  {
    assert Digits(3) == "3";
    assert Spaces(1) == " " && Spaces(2) == "  ";
    assert Centre("3", 4) == " 3  ";
  }

  /** A two-line message gets the prefix in front of both lines. */
  lemma FormatTwoLines(p: string)
    requires '\n' !in p
    ensures Format(p, "a\nb\n") == p + "a\n" + p + "b\n"
  {
    var msg := "a\nb\n";
    FormatShape(p, msg);
    assert msg[..|msg| - 1] == "a\nb";
    assert Replace("b", p) == "b" by {
      assert "b"[1..] == [];
    }
    assert Replace("\nb", p) == "\n" + p + "b" by {
      assert "\nb"[1..] == "b";
    }
    assert Replace("a\nb", p) == "a\n" + p + "b" by {
      assert "a\nb"[1..] == "\nb";
    }
  }
}
