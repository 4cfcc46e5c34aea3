/**
 Schema references (skills/archipelago/protocol/scripts/validate_contracts.py, `_resolve`): a
 reference `#/a/b` walks the schema key by key after undoing the escapes of section 4 of RFC 6901.
 */
module JsonPointer {
  import opened Outcomes
  import opened Sequences

  /** `s.replace(ab, c)` for a two-character pattern. */
  function Replace(s: string, a: char, b: char, c: char): (r: string) {
    if s == "" then ""
    else if |s| >= 2 && s[0] == a && s[1] == b then [c] + Replace(s[2..], a, b, c)
    else [s[0]] + Replace(s[1..], a, b, c)
  }

  function Unescape(raw: string): (r: string) {
    Replace(Replace(raw, '~', '1', '/'), '~', '0', '~')
  }

  /** The keys of a reference, or none when it is not a local one. */
  function Keys(reference: string): (r: Option<seq<string>>) {
    if "#/" <= reference then
      var raws := Split(reference[2..], '/');
      Some(seq(|raws|, i requires 0 <= i < |raws| => Unescape(raws[i])))
    else None
  }

  /** Local references, and no others, begin with `#/`. */
  lemma KeysOfLocal(reference: string)
    ensures Keys(reference).Some? <==> |reference| >= 2 && reference[0] == '#' && reference[1] == '/'
    ensures Keys(reference).Some? ==> Keys(reference).value != []
  {
    if |reference| >= 2 && reference[0] == '#' && reference[1] == '/' { assert reference[..2] == "#/"; }
  }

  // ---------- Escaping ----------

  function Escape(key: string): (r: string) {
    if key == "" then ""
    else if key[0] == '~' then "~0" + Escape(key[1..])
    else if key[0] == '/' then "~1" + Escape(key[1..])
    else [key[0]] + Escape(key[1..])
  }

  /** Escaped, with the slashes already put back. */
  function Half(key: string): (r: string) {
    if key == "" then ""
    else if key[0] == '~' then "~0" + Half(key[1..])
    else [key[0]] + Half(key[1..])
  }

  /** No match starts at the first character. */
  lemma {:induction false} ReplaceSkips(first: char, rest: string, a: char, b: char, c: char)
    requires first != a || rest == "" || rest[0] != b
    ensures Replace([first] + rest, a, b, c) == [first] + Replace(rest, a, b, c)
  {
    assert ([first] + rest)[1..] == rest;
  }

  lemma {:induction false} ReplaceTilde(rest: string)
    ensures Replace("~0" + rest, '~', '1', '/') == "~0" + Replace(rest, '~', '1', '/')
  {
    ReplaceSkips('0', rest, '~', '1', '/');
    ReplaceSkips('~', "0" + rest, '~', '1', '/');
    assert "~0" + rest == ['~'] + ("0" + rest);
  }

  lemma {:induction false} ReplaceSlash(rest: string)
    ensures Replace("~1" + rest, '~', '1', '/') == "/" + Replace(rest, '~', '1', '/')
  {
    assert ("~1" + rest)[2..] == rest;
  }

  lemma {:induction false} FirstReplace(key: string)
    ensures Replace(Escape(key), '~', '1', '/') == Half(key)
  {
    if key == "" {
    } else {
      FirstReplace(key[1..]);
      var e := Escape(key[1..]);
      if key[0] == '~' {
        ReplaceTilde(e);
      } else if key[0] == '/' {
        ReplaceSlash(e);
      } else {
        ReplaceSkips(key[0], e, '~', '1', '/');
      }
    }
  }

  lemma {:induction false} SecondReplace(key: string)
    ensures Replace(Half(key), '~', '0', '~') == key
  {
    if key == "" {
    } else {
      SecondReplace(key[1..]);
      var h := Half(key[1..]);
      if key[0] == '~' {
        assert ("~0" + h)[2..] == h;
      } else {
        ReplaceSkips(key[0], h, '~', '0', '~');
      }
      assert key == [key[0]] + key[1..];
    }
  }

  lemma {:induction false} UnescapeInvertsEscape(key: string)
    ensures Unescape(Escape(key)) == key
  {
    FirstReplace(key);
    SecondReplace(key);
  }

  lemma {:induction false} EscapeHasNoSlash(key: string)
    ensures '/' !in Escape(key)
  {
    if key == "" {
    } else {
      EscapeHasNoSlash(key[1..]);
    }
  }

  // ---------- Whole paths ----------

  /** The reference to a nonempty key path. */
  function Join(keys: seq<string>): (r: string)
    requires keys != []
  {
    if |keys| == 1 then Escape(keys[0]) else Escape(keys[0]) + ("/" + Join(keys[1..]))
  }

  lemma {:induction false} SplitFirst(piece: string, rest: string)
    requires '/' !in piece
    ensures Split(piece + ("/" + rest), '/') == [piece] + Split(rest, '/')
  {
    var all := piece + ("/" + rest);
    if piece == "" {
      assert all[1..] == rest;
    } else {
      SplitFirst(piece[1..], rest);
      assert all[1..] == piece[1..] + ("/" + rest);
      assert piece == [piece[0]] + piece[1..];
    }
  }

  function Escaped(keys: seq<string>): (r: seq<string>)
    ensures |r| == |keys| && forall i :: 0 <= i < |r| ==> r[i] == Escape(keys[i])
  {
    seq(|keys|, i requires 0 <= i < |keys| => Escape(keys[i]))
  }

  lemma {:induction false} SplitInvertsJoin(keys: seq<string>)
    requires keys != []
    ensures Split(Join(keys), '/') == Escaped(keys)
  {
    EscapeHasNoSlash(keys[0]);
    if |keys| == 1 {
      SplitPiece(Escape(keys[0]), '/');
    } else {
      SplitInvertsJoin(keys[1..]);
      SplitFirst(Escape(keys[0]), Join(keys[1..]));
      assert Escaped(keys) == [Escape(keys[0])] + Escaped(keys[1..]);
    }
  }

  /** A reference built from a nonempty key path is read back as that path, whatever the keys contain. */
  lemma {:induction false} KeysInvertJoin(keys: seq<string>)
    requires keys != []
    ensures Keys("#/" + Join(keys)) == Some(keys)
  {
    var reference := "#/" + Join(keys);
    assert reference[2..] == Join(keys);
    SplitInvertsJoin(keys);
    var raws := Split(reference[2..], '/');
    forall i | 0 <= i < |keys| ensures Unescape(raws[i]) == keys[i] {
      UnescapeInvertsEscape(keys[i]);
    }
    assert Keys(reference).value == keys;
  }
}
