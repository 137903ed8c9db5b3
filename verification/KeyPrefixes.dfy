/** Keys built with different prefixes. `create_redis_key` does not write the
    length of its prefix, so two prefixes can meet; this module says when. */
module KeyPrefixes {
  import opened Prelude
  import opened RedisKey
  import Decimal

  /** Two prefixes, four parts, one key. */
  lemma PrefixesCanMeet()
    ensures Key("a", ["x:1:y"]) == Key("a:5:x", ["y"])
  {
    assert Decimal.Print(5) == "5" && Decimal.Print(1) == "1";
    assert Counted("x:1:y", "") == "5:x:1:y";
    assert Counted("y", "") == "1:y";
    assert ["x:1:y"][1..] == [] && ["y"][1..] == [];
  }

  /** `text` reads as whole `:len:part` entries and then as the beginning of one
      whose missing characters can come from further entries. A missing tail of
      exactly one character cannot: it would have to be a colon, and the digit
      behind it starts no entry. */
  predicate Extendable(text: string)
    decreases |text|
  {
    text == "" ||
    (text[0] == ':' &&
     var body := text[1..];
     var i := FirstColon(body);
     match Decimal.Read(body[..i])
     case None => false
     case Some(n) =>
       if i == |body| then n >= 1 else
         var tail := body[i + 1..];
         if n <= |tail| then Extendable(tail[n..]) else n >= |tail| + 2)
  }

  lemma SingleEncoding(part: string, digits: string)
    requires digits == Decimal.Print(|part|)
    ensures EncodeParts([part]) == ":" + (digits + (":" + part))
  {
    assert [part][1..] == [] && part + "" == part;
    Assoc(digits, ":", part);
  }

  lemma EmptyPartInFront(more: seq<string>)
    ensures EncodeParts([""] + more) == ":0:" + EncodeParts(more)
  {
    assert ([""] + more)[1..] == more;
    assert Decimal.Print(0) == "0";
  }

  /** Some encoding can lose its first `m` characters and stay an encoding. */
  lemma {:induction false} Skip(m: nat) returns (ys: seq<string>, zs: seq<string>)
    requires m >= 2
    ensures ys != [] && |EncodeParts(ys)| >= m && EncodeParts(ys)[m..] == EncodeParts(zs)
  {
    if m == 2 {
      ys, zs := ["1:a"], ["a"];
      SingleEncoding("1:a", "3");
      SingleEncoding("a", "1");
    } else if m == 3 {
      ys, zs := [""], [];
      SingleEncoding("", "0");
    } else if m == 4 {
      ys, zs := ["a"], [];
      SingleEncoding("a", "1");
    } else {
      var more;
      more, zs := Skip(m - 3);
      ys := [""] + more;
      EmptyPartInFront(more);
      assert EncodeParts(ys)[m..] == EncodeParts(more)[m - 3..];
    }
  }

  /** Behind its first colon, an encoding never goes on as an encoding. */
  lemma NotAfterColon(xs: seq<string>, ys: seq<string>)
    requires ys != []
    ensures EncodeParts(ys)[1..] != EncodeParts(xs)
  {
    var counted := Counted(ys[0], EncodeParts(ys[1..]));
    assert EncodeParts(ys)[1..] == counted;
    assert Decimal.IsDigit(counted[0]);
  }

  lemma CountedFrom(digits: string, tail: string, more: string, part: string, rest: string)
    requires digits == Decimal.Print(|part|)
    requires tail + more == part + rest
    ensures (digits + ":" + tail) + more == Counted(part, rest)
  {
    assert (digits + ":" + tail) + more == digits + ":" + (tail + more);
  }

  lemma CompleteDigits(n: nat) returns (ys: seq<string>, zs: seq<string>, part: string)
    requires n >= 1
    ensures Decimal.Print(n) + EncodeParts(ys) == Counted(part, EncodeParts(zs))
  {
    ys, zs := Skip(n + 1);
    var text := EncodeParts(ys);
    var tail := text[1..];
    part := tail[..n];
    assert tail[n..] == text[n + 1..];
    Split(tail, n);
    Split(text, 1);
    assert text[..1] == ":";
    Assoc(Decimal.Print(n), ":", tail);
  }

  lemma CompletePart(tail: string, n: nat) returns (ys: seq<string>, zs: seq<string>, part: string)
    requires n >= |tail| + 2
    ensures |part| == n && tail + EncodeParts(ys) == part + EncodeParts(zs)
  {
    var m := n - |tail|;
    ys, zs := Skip(m);
    var head := EncodeParts(ys)[..m];
    part := tail + head;
    Split(EncodeParts(ys), m);
    Assoc(tail, head, EncodeParts(zs));
  }

  lemma WholePart(tail: string, n: nat, ys: seq<string>, zs: seq<string>)
    requires n <= |tail| && EncodeParts(zs) == tail[n..] + EncodeParts(ys)
    ensures tail + EncodeParts(ys) == tail[..n] + EncodeParts(zs)
  {
    Split(tail, n);
    Assoc(tail[..n], tail[n..], EncodeParts(ys));
  }

  lemma PrependColon(body: string, more: string, part: string, zs: seq<string>)
    requires body + more == Counted(part, EncodeParts(zs))
    ensures EncodeParts([part] + zs) == ":" + body + more
  {
    assert ([part] + zs)[1..] == zs;
    assert ":" + body + more == ":" + (body + more);
  }

  /** An extendable text does begin some encoding. */
  lemma {:induction false} Extend(text: string) returns (xs: seq<string>, ys: seq<string>)
    requires Extendable(text)
    ensures EncodeParts(xs) == text + EncodeParts(ys)
    decreases |text|
  {
    xs, ys := [], [];
    if text == "" {
    } else {
      var body := text[1..];
      var i := FirstColon(body);
      var n := Decimal.Read(body[..i]).value;
      var zs, part;
      if i == |body| {
        ys, zs, part := CompleteDigits(n);
        assert body[..i] == body;
      } else {
        var tail := body[i + 1..];
        if n <= |tail| {
          zs, ys := Extend(tail[n..]);
          part := tail[..n];
          WholePart(tail, n, ys, zs);
        } else {
          ys, zs, part := CompletePart(tail, n);
        }
        assert body == body[..i] + ":" + tail;
        CountedFrom(body[..i], tail, EncodeParts(ys), part, EncodeParts(zs));
      }
      PrependColon(body, EncodeParts(ys), part, zs);
      assert text == ":" + body;
      xs := [part] + zs;
    }
  }

  lemma FirstColonAt(s: string, i: nat)
    requires i <= |s| && Free(s[..i], {':'})
    requires i < |s| ==> s[i] == ':'
    ensures FirstColon(s) == i
  {
    if i < |s| {
      FirstColonAfter(s[..i], s[i + 1..]);
      assert s == s[..i] + ":" + s[i + 1..];
    } else {
      assert s[..i] == s;
    }
  }

  lemma InsideDigits(body: string, more: string, digits: string, tail: string)
    requires Decimal.AllDigits(digits) && body + more == digits + tail && |body| < |digits|
    ensures more != "" && Decimal.IsDigit(more[0])
  {
    assert (body + more)[|body|] == digits[|body|];
    assert more != "" && (body + more)[|body|] == more[0];
  }

  lemma SplitColon(gap: string, more: string, after: string)
    requires gap + more == ":" + after
    ensures gap == "" ==> more != "" && more[1..] == after
    ensures gap != "" ==> gap[0] == ':' && gap[1..] + more == after
  {
    Take(":", after);
    if gap == "" {
      assert gap + more == more;
    } else {
      assert (gap + more)[1..] == gap[1..] + more;
      assert gap[0] == (gap + more)[0] == (":" + after)[0];
    }
  }

  /** Where the given beginning of `len:part...` stops: behind the colon, or
      exactly before it. */
  lemma SplitCounted(body: string, more: string, part: string, rest: string)
    requires body + more == Counted(part, rest)
    requires more == "" || more[0] == ':'
    ensures var i := |Decimal.Print(|part|)|;
            && i <= |body| && body[..i] == Decimal.Print(|part|) && FirstColon(body) == i
            && (i < |body| ==> body[i + 1..] + more == part + rest)
            && (i == |body| ==> more != "" && more[1..] == part + rest)
  {
    var digits, after := Decimal.Print(|part|), part + rest;
    var i := |digits|;
    Assoc(digits, ":", after);
    if |body| < i {
      InsideDigits(body, more, digits, ":" + after);
      assert false;
    } else {
      var gap := body[i..];
      assert body[..i] == digits by {
        assert (body + more)[..i] == body[..i];
        Take(digits, ":" + after);
      }
      Split(body, i);
      Assoc(digits, gap, more);
      Cancel(digits, gap + more, ":" + after);
      SplitColon(gap, more, after);
      FirstColonAt(body, i);
      assert i < |body| ==> body[i + 1..] == gap[1..];
    }
  }

  lemma SplitPart(tail: string, more: string, part: string, rest: string)
    requires tail + more == part + rest
    ensures |part| <= |tail| ==> rest == tail[|part|..] + more
    ensures |part| == |tail| + 1 ==> more != "" && more[1..] == rest
  {
    var all := tail + more;
    assert all[|part|..] == rest;
    if |part| <= |tail| {
      assert all[|part|..] == tail[|part|..] + more;
    } else if |part| == |tail| + 1 {
      assert |all| >= |part|;
      assert all[|part|..] == more[1..];
    }
  }

  /** And only an extendable text begins one. */
  lemma {:induction false} OnlyExtendable(text: string, xs: seq<string>, ys: seq<string>)
    requires EncodeParts(xs) == text + EncodeParts(ys)
    ensures Extendable(text)
    decreases |text|
  {
    if text == "" {
    } else {
      var body, more := text[1..], EncodeParts(ys);
      var part, rest := xs[0], EncodeParts(xs[1..]);
      assert text[0] == EncodeParts(xs)[0] == ':';
      assert body + more == EncodeParts(xs)[1..] == Counted(part, rest);
      SplitCounted(body, more, part, rest);
      Decimal.ReadPrint(|part|);
      var i := FirstColon(body);
      var tail := if i < |body| then body[i + 1..] else "";
      if i < |body| {
        SplitPart(tail, more, part, rest);
        if |part| <= |tail| {
          OnlyExtendable(tail[|part|..], xs[1..], ys);
        } else if |part| == |tail| + 1 {
          NotAfterColon(xs[1..], ys);
        }
      } else if part == "" {
        assert part + rest == rest;
        NotAfterColon(xs[1..], ys);
      }
    }
  }

  ghost predicate Meet(p: string, q: string) {
    exists xs, ys :: Key(p, xs) == Key(q, ys)
  }

  lemma MeetOnlyWhen(p: string, q: string, xs: seq<string>, ys: seq<string>)
    requires |p| <= |q| && Key(p, xs) == Key(q, ys)
    ensures p <= q && Extendable(q[|p|..])
  {
    var key := Key(p, xs);
    assert p == key[..|p|] && q == key[..|q|];
    assert key[|p|..] == EncodeParts(xs);
    assert key[|p|..] == q[|p|..] + EncodeParts(ys);
    OnlyExtendable(q[|p|..], xs, ys);
  }

  lemma MeetWhenever(p: string, gap: string)
    requires Extendable(gap)
    ensures Meet(p, p + gap)
  {
    var xs, ys := Extend(gap);
    assert p + (gap + EncodeParts(ys)) == (p + gap) + EncodeParts(ys);
    assert Key(p, xs) == Key(p + gap, ys);
  }

  /** The exact case in which a shorter and a longer prefix share a key: the
      longer one goes on from the shorter one like a list of parts. */
  lemma PrefixesMeetWhen(p: string, q: string)
    requires |p| <= |q|
    ensures Meet(p, q) <==> p <= q && Extendable(q[|p|..])
  {
    if Meet(p, q) {
      var xs, ys :| Key(p, xs) == Key(q, ys);
      MeetOnlyWhen(p, q, xs, ys);
    }
    if p <= q && Extendable(q[|p|..]) {
      MeetWhenever(p, q[|p|..]);
      assert q == p + q[|p|..];
    }
  }

  lemma ColonFreePrefixNotLonger(p: string, q: string, xs: seq<string>, ys: seq<string>)
    requires Free(q, {':'}) && |p| <= |q| && Key(p, xs) == Key(q, ys)
    ensures p == q && xs == ys
  {
    MeetOnlyWhen(p, q, xs, ys);
    if |p| < |q| {
      assert false;
    }
    assert p == q[..|p|] == q;
    Injective(p, xs, ys);
  }

  /** Prefixes without a colon, like this application's `feature_flag`, meet only
      when they are equal, and then the parts are equal too. */
  lemma ColonFreePrefixesApart(p: string, q: string, xs: seq<string>, ys: seq<string>)
    requires Free(p, {':'}) && Free(q, {':'})
    ensures Key(p, xs) == Key(q, ys) <==> p == q && xs == ys
  {
    if Key(p, xs) == Key(q, ys) {
      if |p| <= |q| {
        ColonFreePrefixNotLonger(p, q, xs, ys);
      } else {
        ColonFreePrefixNotLonger(q, p, ys, xs);
      }
    }
  }
}
