/** The PHP string and array built-ins the sync code relies on, with the
    behaviour of PHP 8. */
module PhpStrings {
  import opened Base

  /** The strip from the left half of `trim($s, $chars)`. */
  function TrimLeft(s: string, chars: set<char>): (r: string)
    ensures |r| <= |s| && r == s[|s| - |r|..]
    ensures r == [] || r[0] !in chars
  {
    if s == [] then []
    else if s[0] in chars then TrimLeft(s[1..], chars)
    else s
  }

  /** The strip from the right half of `trim($s, $chars)`. */
  function TrimRight(s: string, chars: set<char>): (r: string)
    ensures |r| <= |s| && r == s[..|r|]
    ensures r == [] || r[|r| - 1] !in chars
  {
    if s == [] then []
    else if s[|s| - 1] in chars then TrimRight(s[..|s| - 1], chars)
    else s
  }

  /** `trim($s, $chars)`: removes every leading and every trailing
      character of `s` that belongs to `chars`. */
  function Trim(s: string, chars: set<char>): string {
    TrimRight(TrimLeft(s, chars), chars)
  }

  /** Only characters of `chars` are stripped from the left. */
  lemma {:induction false} TrimLeftStrips(s: string, chars: set<char>)
    ensures forall i :: 0 <= i < |s| - |TrimLeft(s, chars)| ==> s[i] in chars
  {
    if s != [] && s[0] in chars {
      TrimLeftStrips(s[1..], chars);
      forall i | 1 <= i < |s| - |TrimLeft(s, chars)| ensures s[i] in chars {
        assert s[i] == s[1..][i - 1];
      }
    }
  }

  /** Only characters of `chars` are stripped from the right. */
  lemma {:induction false} TrimRightStrips(s: string, chars: set<char>)
    ensures forall i :: |TrimRight(s, chars)| <= i < |s| ==> s[i] in chars
  {
    if s != [] && s[|s| - 1] in chars {
      TrimRightStrips(s[..|s| - 1], chars);
    }
  }

  /** Trimming a text whose first and last characters are kept returns
      it unchanged, whatever run of trimmed characters surrounds it. */
  lemma TrimSurrounded(pre: string, core: string, post: string, chars: set<char>)
    requires forall i :: 0 <= i < |pre| ==> pre[i] in chars
    requires forall i :: 0 <= i < |post| ==> post[i] in chars
    requires |core| > 0 && core[0] !in chars && core[|core| - 1] !in chars
    ensures Trim(pre + core + post, chars) == core
  {
    assert pre + core + post == pre + (core + post);
    TrimLeftStops(pre, core + post, chars);
    TrimRightStops(core, post, chars);
  }

  lemma {:induction false} TrimLeftStops(pre: string, rest: string, chars: set<char>)
    requires forall i :: 0 <= i < |pre| ==> pre[i] in chars
    requires |rest| > 0 && rest[0] !in chars
    ensures TrimLeft(pre + rest, chars) == rest
  {
    if pre != [] {
      assert (pre + rest)[1..] == pre[1..] + rest;
      TrimLeftStops(pre[1..], rest, chars);
    }
  }

  lemma {:induction false} TrimRightStops(rest: string, post: string, chars: set<char>)
    requires forall i :: 0 <= i < |post| ==> post[i] in chars
    requires |rest| > 0 && rest[|rest| - 1] !in chars
    ensures TrimRight(rest + post, chars) == rest
  {
    if post != [] {
      var p := post[..|post| - 1];
      assert (rest + post)[..|rest + post| - 1] == rest + p;
      TrimRightStops(rest, p, chars);
    } else {
      assert rest + post == rest;
    }
  }

  /** `explode($sep, $s)` for a one-character separator: the pieces of `s`
      between separators, so there is always at least one piece. */
  function Explode(sep: char, s: string): (parts: seq<string>)
    ensures |parts| >= 1
  {
    if s == [] then [""]
    else
      var rest := Explode(sep, s[1..]);
      if s[0] == sep then [""] + rest
      else [[s[0]] + rest[0]] + rest[1..]
  }

  /** No piece holds the separator. */
  lemma {:induction false} ExplodeNoSeparator(sep: char, s: string)
    ensures forall i :: 0 <= i < |Explode(sep, s)| ==> sep !in Explode(sep, s)[i]
  {
    if s != [] {
      ExplodeNoSeparator(sep, s[1..]);
      var rest := Explode(sep, s[1..]);
      if s[0] != sep {
        assert sep !in rest[0];
        forall i | 1 <= i < |Explode(sep, s)| ensures sep !in Explode(sep, s)[i] {
          assert Explode(sep, s)[i] == rest[i];
        }
      }
    }
  }

  /** `implode($sep, $parts)`: the pieces with `sep` between neighbours. */
  function Join(parts: seq<string>, sep: string): string
    requires |parts| >= 1
  {
    if |parts| == 1 then parts[0] else parts[0] + sep + Join(parts[1..], sep)
  }

  /** Joining the pieces of `s` back together gives `s`. */
  lemma {:induction false} JoinExplode(sep: char, s: string)
    ensures Join(Explode(sep, s), [sep]) == s
  {
    if s != [] {
      var rest := Explode(sep, s[1..]);
      JoinExplode(sep, s[1..]);
      if s[0] == sep {
        assert Join(Explode(sep, s), [sep]) == "" + [sep] + Join(rest, [sep]);
        assert s == [s[0]] + s[1..];
      } else {
        var parts := Explode(sep, s);
        assert parts[1..] == rest[1..];
        if |rest| == 1 {
          assert Join(parts, [sep]) == [s[0]] + rest[0];
        } else {
          assert Join(parts, [sep]) == [s[0]] + rest[0] + [sep] + Join(rest[1..], [sep]);
        }
        assert s == [s[0]] + s[1..];
      }
    }
  }

  /** A text without separator, followed by anything, is the first piece
      glued to the first piece of the rest. */
  lemma {:induction false} ExplodePrefix(sep: char, p: string, t: string)
    requires sep !in p
    ensures Explode(sep, p + t) == [p + Explode(sep, t)[0]] + Explode(sep, t)[1..]
  {
    if p != [] {
      assert (p + t)[1..] == p[1..] + t;
      ExplodePrefix(sep, p[1..], t);
      var rest := Explode(sep, p[1..] + t);
      assert p[0] != sep && p[0] == (p + t)[0];
      assert Explode(sep, p + t) == [[p[0]] + rest[0]] + rest[1..];
      assert rest[1..] == Explode(sep, t)[1..];
      assert [p[0]] + (p[1..] + Explode(sep, t)[0]) == p + Explode(sep, t)[0];
    } else {
      assert p + t == t && p + Explode(sep, t)[0] == Explode(sep, t)[0];
    }
  }

  /** Splitting joined pieces that hold no separator gives the pieces back. */
  lemma {:induction false} ExplodeJoin(sep: char, parts: seq<string>)
    requires |parts| >= 1
    requires forall i :: 0 <= i < |parts| ==> sep !in parts[i]
    ensures Explode(sep, Join(parts, [sep])) == parts
  {
    if |parts| == 1 {
      ExplodePrefix(sep, parts[0], "");
      assert parts[0] + "" == parts[0];
    } else {
      var j := Join(parts[1..], [sep]);
      ExplodeJoin(sep, parts[1..]);
      ExplodePrefix(sep, parts[0], [sep] + j);
      assert parts[0] + [sep] + j == parts[0] + ([sep] + j);
      assert ([sep] + j)[1..] == j;
      assert Explode(sep, [sep] + j) == [""] + parts[1..];
      assert parts[0] + "" == parts[0];
    }
  }

  /** The joined text starts with the first character of the first piece. */
  lemma JoinStartsWith(parts: seq<string>, sep: string)
    requires |parts| >= 1 && |parts[0]| >= 1
    ensures |Join(parts, sep)| >= 1 && Join(parts, sep)[0] == parts[0][0]
  {
    if |parts| > 1 {
      assert Join(parts, sep) == parts[0] + (sep + Join(parts[1..], sep));
    }
  }

  /** The joined text ends with the last character of the last piece. */
  lemma {:induction false} JoinEndsWith(parts: seq<string>, sep: string)
    requires |parts| >= 1 && |parts[|parts| - 1]| >= 1
    ensures var j := Join(parts, sep); |j| >= 1 && j[|j| - 1] == parts[|parts| - 1][|parts[|parts| - 1]| - 1]
  {
    if |parts| > 1 {
      var rest := Join(parts[1..], sep);
      JoinEndsWith(parts[1..], sep);
      assert parts[1..][|parts[1..]| - 1] == parts[|parts| - 1];
      assert Join(parts, sep) == (parts[0] + sep) + rest;
    }
  }

  /** The character of a decimal digit. */
  function Digit(d: nat): (c: char)
    requires d < 10
    ensures '0' <= c <= '9'
  {
    "0123456789"[d]
  }

  /** The canonical decimal text of `n`, as PHP prints an integer. */
  function Decimal(n: nat): (r: string)
    ensures |r| >= 1
    ensures n >= 10 ==> |r| >= 2
  {
    if n < 10 then [Digit(n)] else Decimal(n / 10) + [Digit(n % 10)]
  }

  /** A decimal text is made of digits. */
  lemma {:induction false} DecimalDigits(n: nat)
    ensures forall i :: 0 <= i < |Decimal(n)| ==> '0' <= Decimal(n)[i] <= '9'
  {
    if n >= 10 {
      DecimalDigits(n / 10);
    }
  }

  /** Different numbers have different decimal texts. */
  lemma {:induction false} DecimalInjective(a: nat, b: nat)
    requires Decimal(a) == Decimal(b)
    ensures a == b
  {
    if a >= 10 && b >= 10 {
      var da, db := Decimal(a), Decimal(b);
      assert da[|da| - 1] == Digit(a % 10) && db[|db| - 1] == Digit(b % 10);
      assert a % 10 == b % 10;
      assert da[..|da| - 1] == Decimal(a / 10);
      assert db[..|db| - 1] == Decimal(b / 10);
      DecimalInjective(a / 10, b / 10);
    }
  }

  /** `array_search($needle, $list)` on a list: the first index holding
      the needle, or `false` (here `None`) when there is none. */
  function ArraySearch<T(==)>(needle: T, list: seq<T>): (r: Option<nat>)
    ensures r.Some? ==> r.value < |list| && list[r.value] == needle && needle !in list[..r.value]
    ensures r.None? <==> needle !in list
  {
    if list == [] then None
    else if list[0] == needle then Some(0)
    else
      match ArraySearch(needle, list[1..])
      case None => None
      case Some(i) => Some(i + 1)
  }

  /** `substr($s, 0, -$n)`: `s` without its last `n` characters, and the
      empty string when `s` is not longer than that (PHP 8). */
  function DropLast(s: string, n: nat): (r: string)
    ensures |s| >= n ==> r + s[|s| - n..] == s
    ensures |s| <= n ==> r == ""
  {
    if |s| <= n then "" else s[..|s| - n]
  }
}
