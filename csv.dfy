/**
 * The tokenizer of one CSV line in `ImportService._parseCSV`: the global match of
 * `(".*?"|[^",\s]+)(?=\s*,|\s*$)` and the clean-up of each match. The expression has no
 * look-behind, no `^` and no multi-line flag, so what it matches from a position depends
 * only on the text from that position on; the scanner below works on suffixes.
 */
module CsvTokens {
  import opened Wrappers
  import opened Strings

  /** `[^",\s]`: the characters of an unquoted value. */
  predicate Suelto(c: char) {
    c != '"' && c != ',' && !IsSpace(c)
  }

  /** The look-ahead `(?=\s*,|\s*$)`: after any white space, a comma or the end of the line. */
  predicate Sigue(t: string) {
    t == [] || t[0] == ',' || (IsSpace(t[0]) && Sigue(t[1..]))
  }

  /**
   * The lazy `.*?"` after an opening quote, searching `t` from index `j`: the first `"`
   * that the look-ahead accepts, provided no line terminator (which `.` does not match)
   * comes first.
   */
  function Cierre(t: string, j: nat): (r: Option<nat>)
    requires j <= |t|
    ensures r.Some? ==> j <= r.value < |t| && t[r.value] == '"' && Sigue(t[r.value + 1..])
    ensures r.Some? ==> forall i :: j <= i < r.value ==> !IsLineTerminator(t[i])
    decreases |t| - j
  {
    if j == |t| then None
    else if t[j] == '"' && Sigue(t[j + 1..]) then Some(j)
    else if IsLineTerminator(t[j]) then None
    else Cierre(t, j + 1)
  }

  /** Length of the greedy run `[^",\s]+` at the start of `s`. */
  function Corrida(s: string): (k: nat)
    ensures k <= |s|
    ensures forall i :: 0 <= i < k ==> Suelto(s[i])
    ensures k < |s| ==> !Suelto(s[k])
  {
    if s == [] || !Suelto(s[0]) then 0 else 1 + Corrida(s[1..])
  }

  /** A match of the first alternative: a quoted value. */
  predicate Citado(tok: string) {
    |tok| >= 2 && tok[0] == '"' && tok[|tok| - 1] == '"'
  }

  /** A match of the second alternative: an unquoted value. */
  predicate SinComillas(tok: string) {
    |tok| >= 1 && forall i :: 0 <= i < |tok| ==> Suelto(tok[i])
  }

  /**
   * `line.match(re)` with the `g` flag, `[]` standing for `null`: at each position the
   * quoted alternative is tried first, then the unquoted run (only the maximal run can
   * satisfy the look-ahead, since a shorter one is followed by a character of the run);
   * when neither matches, the search moves on by one character.
   */
  function Tokens(s: string): (r: seq<string>)
    ensures forall k :: 0 <= k < |r| ==> Citado(r[k]) || SinComillas(r[k])
    decreases |s|
  {
    if s == [] then []
    else if s[0] == '"' && Cierre(s, 1).Some? then
      var n := Cierre(s, 1).value + 1;
      [s[..n]] + Tokens(s[n..])
    else if Corrida(s) > 0 && Sigue(s[Corrida(s)..]) then
      var n := Corrida(s);
      [s[..n]] + Tokens(s[n..])
    else Tokens(s[1..])
  }

  /** `replace(/^"|"$/g, '')`: one leading and one trailing quote go. */
  function SinExtremos(tok: string): (r: string)
    ensures |r| <= |tok|
    ensures Citado(tok) ==> r == tok[1..|tok| - 1]
  {
    var a := if |tok| > 0 && tok[0] == '"' then 1 else 0;
    var b := if |tok| > a && tok[|tok| - 1] == '"' then |tok| - 1 else |tok|;
    tok[a..b]
  }

  /** `replace(/""/g, '"')`: left to right, each `""` becomes `"`. */
  function Desdoblar(s: string): (r: string)
    ensures |r| <= |s|
    ensures '"' !in s ==> r == s
  {
    if s == [] then ""
    else if |s| >= 2 && s[0] == '"' && s[1] == '"' then "\"" + Desdoblar(s[2..])
    else
      assert '"' !in s ==> s == [s[0]] + s[1..];
      [s[0]] + Desdoblar(s[1..])
  }

  /** The value a match stands for. */
  function Limpiar(tok: string): string {
    Desdoblar(SinExtremos(tok))
  }

  function Limpios(toks: seq<string>): (r: seq<string>)
    ensures |r| == |toks|
    ensures forall k :: 0 <= k < |r| ==> r[k] == Limpiar(toks[k])
  {
    if toks == [] then [] else [Limpiar(toks[0])] + Limpios(toks[1..])
  }

  // --- Lines made of quoted cells ---

  /** `"d"` */
  function Entre(d: string): string {
    "\"" + d + "\""
  }

  /** Cell contents the quoted alternative reads back whole: no quote, no line terminator. */
  predicate Legible(d: string) {
    '"' !in d && forall i :: 0 <= i < |d| ==> !IsLineTerminator(d[i])
  }

  /** A comma ends a value: after a comma, or at the end, the look-ahead holds. */
  lemma SigueComa(rest: string)
    requires rest == [] || rest[0] == ','
    ensures Sigue(rest)
  {
  }

  /** With no quote in `d`, the closing quote is the one right after `d`. */
  lemma {:induction false} CierreTrasLegible(t: string, j: nat, d: string, rest: string)
    requires t == Entre(d) + rest && 1 <= j <= |d| + 1
    requires Legible(d) && Sigue(rest)
    ensures Cierre(t, j) == Some(|d| + 1)
    decreases |d| + 1 - j
  {
    if j == |d| + 1 {
      assert t[j + 1..] == rest;
    } else {
      assert t[j] == d[j - 1];
      CierreTrasLegible(t, j + 1, d, rest);
    }
  }

  /** A quoted match taken at the start of `s` is the first token. */
  lemma TokensPasoCitado(s: string, q: nat)
    requires |s| >= 1 && s[0] == '"' && Cierre(s, 1) == Some(q)
    ensures Tokens(s) == [s[..q + 1]] + Tokens(s[q + 1..])
  {
  }

  /** A quoted cell followed by a comma or the end is matched whole. */
  lemma TokenCitado(d: string, rest: string)
    requires Legible(d) && (rest == [] || rest[0] == ',')
    ensures Tokens(Entre(d) + rest) == [Entre(d)] + Tokens(rest)
  {
    var s := Entre(d) + rest;
    SigueComa(rest);
    CierreTrasLegible(s, 1, d, rest);
    TokensPasoCitado(s, |d| + 1);
    assert s[..|d| + 2] == Entre(d) && s[|d| + 2..] == rest;
  }

  /** A comma is never a match and is skipped. */
  lemma SaltaComa(rest: string)
    ensures Tokens("," + rest) == Tokens(rest)
  {
    var s := "," + rest;
    assert s[0] == ',' && !Suelto(',') && Corrida(s) == 0;
    assert s[1..] == rest;
  }

  /** A readable quoted cell, a comma and more cells: the cell, then the tokens of the rest. */
  lemma PasoCelda(d: string, cola: string)
    requires Legible(d)
    ensures Tokens(Entre(d) + "," + cola) == [Entre(d)] + Tokens(cola)
  {
    assert Entre(d) + "," + cola == Entre(d) + ("," + cola);
    TokenCitado(d, "," + cola);
    SaltaComa(cola);
  }

  predicate TodasLegibles(ds: seq<string>) {
    forall i :: 0 <= i < |ds| ==> Legible(ds[i])
  }

  function Entres(ds: seq<string>): (r: seq<string>)
    ensures |r| == |ds|
    ensures forall i :: 0 <= i < |r| ==> r[i] == Entre(ds[i])
  {
    if ds == [] then [] else [Entre(ds[0])] + Entres(ds[1..])
  }

  /** A line of quoted readable cells, then a comma or the end, yields exactly those cells. */
  lemma {:induction false} TokensCeldas(ds: seq<string>, rest: string)
    requires |ds| >= 1 && TodasLegibles(ds)
    requires rest == [] || rest[0] == ','
    ensures Tokens(Join(Entres(ds), ',') + rest) == Entres(ds) + Tokens(rest)
  {
    var cs := Entres(ds);
    if |ds| == 1 {
      assert Join(cs, ',') == Entre(ds[0]);
      TokenCitado(ds[0], rest);
    } else {
      var cola := Join(cs[1..], ',');
      assert Entres(ds[1..]) == cs[1..];
      assert Join(cs, ',') == cs[0] + [','] + cola;
      LegiblesCola(ds);
      TokensCeldas(ds[1..], rest);
      CeldaYCola(ds[0], cola, rest, cs[1..]);
      assert cs == [Entre(ds[0])] + cs[1..];
    }
  }

  lemma CeldaYCola(d: string, cola: string, rest: string, celdas: seq<string>)
    requires Legible(d) && Tokens(cola + rest) == celdas + Tokens(rest)
    ensures Tokens(Entre(d) + [','] + cola + rest) == [Entre(d)] + celdas + Tokens(rest)
  {
    assert Entre(d) + [','] + cola + rest == Entre(d) + "," + (cola + rest);
    PasoCelda(d, cola + rest);
  }

  lemma LegiblesCola(ds: seq<string>)
    requires |ds| >= 1 && TodasLegibles(ds)
    ensures TodasLegibles(ds[1..])
  {
    forall i | 0 <= i < |ds[1..]|
      ensures ds[1..][i] == ds[i + 1]
    {
    }
  }

  /** The value of a readable quoted cell is its content. */
  lemma LimpiarEntre(d: string)
    requires '"' !in d
    ensures Limpiar(Entre(d)) == d
  {
    var e := Entre(d);
    assert Citado(e) && e[1..|e| - 1] == d;
  }

  lemma {:induction false} LimpiosEntres(ds: seq<string>)
    requires TodasLegibles(ds)
    ensures Limpios(Entres(ds)) == ds
  {
    forall i | 0 <= i < |ds|
      ensures Limpios(Entres(ds))[i] == ds[i]
    {
      LimpiarEntre(ds[i]);
    }
  }

  /**
   * A quote followed (after white space) by a comma, with no line terminator before it,
   * closes the quoted value at the latest there.
   */
  lemma {:induction false} CierreAntes(t: string, j: nat, p: nat)
    requires j <= p < |t| && t[p] == '"' && Sigue(t[p + 1..])
    requires forall i :: j <= i < p ==> !IsLineTerminator(t[i])
    ensures Cierre(t, j).Some? && Cierre(t, j).value <= p
    decreases p - j
  {
    if j < p && !(t[j] == '"' && Sigue(t[j + 1..])) {
      CierreAntes(t, j + 1, p);
    }
  }
}
