/**
 * Worker-ID derivation (`PDFProcessor.generar_id`). The short code it
 * builds from a worker's name is the key that joins income rows to
 * contribution rows, so how the name is cut into surnames and a given
 * name decides which facts meet in the hourly-cost query.
 */
module WorkerId {
  import opened Wrappers
  import opened PyText

  /** What `generar_id` can raise: `nombre[0]` on an empty given name. */
  datatype IdError = IndexError

  /** How the normalised name is read: either too short to segment, or a
      list of surnames and a given name. */
  datatype Segmentation =
    | Fallback(text: string)
    | Parts(surnames: seq<string>, given: string)

  /** The name upper-cased, then stripped. */
  function Normalise(nombreCompleto: string): string {
    Strip(Upper(nombreCompleto))
  }

  /** Where `s.split(',', 1)` cuts: the first comma. */
  function FirstComma(s: string): (i: nat)
    requires ',' in s
    ensures i < |s| && s[i] == ',' && ',' !in s[..i]
  {
    CommaFrom(s, 0)
  }

  /** The first comma at or after `k`. */
  function CommaFrom(s: string, k: nat): (i: nat)
    requires exists j :: k <= j < |s| && s[j] == ','
    ensures k <= i < |s| && s[i] == ','
    ensures forall j :: k <= j < i ==> s[j] != ','
    decreases |s| - k
  {
    if s[k] == ',' then k else CommaFrom(s, k + 1)
  }

  /** The segmentation of an already normalised name: with a comma,
      surnames before the first comma and the given name after it; without
      one, the last token is the given name and the earlier ones are
      surnames, unless there are fewer than three tokens. */
  function Segment(nombre: string): (seg: Segmentation)
    ensures seg.Fallback? <==> ',' !in nombre && |Words(nombre)| < 3
    ensures seg.Fallback? ==> seg.text == nombre
    ensures seg.Parts? ==> forall k :: 0 <= k < |seg.surnames| ==>
      seg.surnames[k] != [] && NoSpace(seg.surnames[k])
    ensures ',' !in nombre && seg.Parts? ==>
      |seg.surnames| >= 2 && seg.given != [] && NoSpace(seg.given)
  {
    if ',' in nombre then
      var i := FirstComma(nombre);
      Parts(Words(Strip(nombre[..i])), Strip(nombre[i + 1..]))
    else
      var partes := Words(nombre);
      if |partes| < 3 then Fallback(nombre)
      else Parts(partes[..|partes| - 1], partes[|partes| - 1])
  }

  /** The code built from surnames and given name. */
  function Code(apellidos: seq<string>, nombre: string): (r: Result<string, IdError>)
    ensures r.Ok? ==> |r.value| <= 5
  {
    if |apellidos| >= 2 then
      if nombre == [] then Err(IndexError)
      else Ok(Upper(Take(apellidos[0], 2) + Take(apellidos[1], 2) + [nombre[0]]))
    else if |apellidos| == 1 then
      Ok(Upper(Take(apellidos[0], 2) + Take(nombre, 2)))
    else
      Ok(Upper(Take(nombre, 3)))
  }

  /** The code for an already normalised name. */
  function IdOf(nombre: string): (r: Result<string, IdError>)
    ensures r.Ok? ==> |r.value| <= 5
  {
    SegmentCode(Segment(nombre))
  }

  /** The code of a segmentation: a fallback keeps its first three
      characters. */
  function SegmentCode(seg: Segmentation): (r: Result<string, IdError>)
    ensures r.Ok? ==> |r.value| <= 5
  {
    match seg
    case Fallback(text) => Ok(Take(text, 3))
    case Parts(apellidos, dado) => Code(apellidos, dado)
  }

  /** `generar_id(nombre_completo)`; `Err(IndexError)` where Python raises. */
  function GenerarId(nombreCompleto: string): (r: Result<string, IdError>)
    ensures r.Ok? ==> |r.value| <= 5
  {
    IdOf(Normalise(nombreCompleto))
  }

  // ----- normalisation -----

  /** The result does not depend on the case of the input. */
  lemma {:induction false} GenerarIdIgnoresCase(s: string)
    ensures GenerarId(Upper(s)) == GenerarId(s)
  {
    UpperIdempotent(s);
  }

  /** Nor on whitespace around it. */
  lemma {:induction false} GenerarIdIgnoresPadding(p: string, s: string, q: string)
    requires AllSpace(p) && AllSpace(q)
    ensures GenerarId(p + s + q) == GenerarId(s)
  {
    UpperAppend(p + s, q);
    UpperAppend(p, s);
    UpperKeepsSpace(p);
    UpperKeepsSpace(q);
    StripPadded(Upper(p), Upper(s), Upper(q));
  }

  // ----- the three shapes of a name -----

  lemma {:induction false} NormalisedIsUpper(s: string)
    ensures IsUpper(Normalise(s))
  {
    UpperIdempotent(s);
    StripOfUpper(Upper(s));
  }

  /** Without a comma and with fewer than three tokens, the code is the
      first three characters of the normalised name, spaces included. */
  lemma {:induction false} ShortNameFallback(s: string)
    requires ',' !in Normalise(s) && |Words(Normalise(s))| < 3
    ensures GenerarId(s) == Ok(Take(Normalise(s), 3))
  {
  }

  /** A missing name gives the empty code. */
  lemma EmptyName()
    ensures GenerarId("") == Ok("")
  {
  }

  /** Without a comma and with three or more tokens, the last token is the
      given name: the code is two letters of each of the first two tokens
      and the first letter of the last one. */
  lemma {:induction false} ThreeOrMoreTokens(s: string)
    requires ',' !in Normalise(s) && |Words(Normalise(s))| >= 3
    ensures var ws := Words(Normalise(s));
      GenerarId(s) == Ok(Take(ws[0], 2) + Take(ws[1], 2) + [ws[|ws| - 1][0]])
  {
    assert GenerarId(s) == IdOf(Normalise(s));
    NormalisedIsUpper(s);
    IdOfTokens(Normalise(s));
  }

  lemma {:induction false} IdOfTokens(n: string)
    requires IsUpper(n) && ',' !in n && |Words(n)| >= 3
    ensures var ws := Words(n);
      IdOf(n) == Ok(Take(ws[0], 2) + Take(ws[1], 2) + [ws[|ws| - 1][0]])
  {
    var ws := Words(n);
    assert IdOf(n) == Code(ws[..|ws| - 1], ws[|ws| - 1]);
    WordsOfUpper(n);
    UpperTake(ws[0], 2);
    UpperTake(ws[1], 2);
    UpperOfUpper(Take(ws[0], 2) + Take(ws[1], 2) + [ws[|ws| - 1][0]]);
  }

  /** With a comma, the name is cut at the first comma: the words before it
      are the surnames and the stripped text after it is the given name. */
  lemma {:induction false} CommaForm(s: string)
    requires ',' in Normalise(s)
    ensures var n := Normalise(s);
      var i := FirstComma(n);
      var sur := Words(n[..i]);
      var dado := Strip(n[i + 1..]);
      && (|sur| == 0 ==> GenerarId(s) == Ok(Take(dado, 3)))
      && (|sur| == 1 ==> GenerarId(s) == Ok(Take(sur[0], 2) + Take(dado, 2)))
      && (|sur| >= 2 && dado != [] ==>
            GenerarId(s) == Ok(Take(sur[0], 2) + Take(sur[1], 2) + [dado[0]]))
      && (|sur| >= 2 && dado == [] ==> GenerarId(s) == Err(IndexError))
  {
    var n := Normalise(s);
    assert GenerarId(s) == IdOf(n);
    NormalisedIsUpper(s);
    SegmentComma(n);
    CommaPartsUpper(n);
    CodeOfUpper(Words(n[..FirstComma(n)]), Strip(n[FirstComma(n) + 1..]));
  }

  /** With a comma, the surnames are the words before the first comma. */
  lemma {:induction false} SegmentComma(n: string)
    requires ',' in n
    ensures var i := FirstComma(n);
      && Segment(n) == Parts(Words(n[..i]), Strip(n[i + 1..]))
      && IdOf(n) == Code(Words(n[..i]), Strip(n[i + 1..]))
  {
    WordsOfStrip(n[..FirstComma(n)]);
  }

  /** Without a comma, the words decide. */
  lemma {:induction false} SegmentNoComma(n: string)
    requires ',' !in n
    ensures var ws := Words(n);
      && Segment(n) == (if |ws| < 3 then Fallback(n) else Parts(ws[..|ws| - 1], ws[|ws| - 1]))
      && IdOf(n) == (if |ws| < 3 then Ok(Take(n, 3)) else Code(ws[..|ws| - 1], ws[|ws| - 1]))
  {
  }

  lemma {:induction false} CommaPartsUpper(n: string)
    requires IsUpper(n) && ',' in n
    ensures forall k :: 0 <= k < |Words(n[..FirstComma(n)])| ==> IsUpper(Words(n[..FirstComma(n)])[k])
    ensures IsUpper(Strip(n[FirstComma(n) + 1..]))
  {
    var i := FirstComma(n);
    var left := n[..i];
    var right := n[i + 1..];
    assert IsUpper(left) by {
      forall j | 0 <= j < |left| ensures UpperChar(left[j]) == left[j] {
        assert left[j] == n[j];
      }
    }
    assert IsUpper(right) by {
      forall j | 0 <= j < |right| ensures UpperChar(right[j]) == right[j] {
        assert right[j] == n[i + 1 + j];
      }
    }
    WordsOfUpper(left);
    StripOfUpper(right);
  }

  /** On upper-case pieces the final `upper()` changes nothing. */
  lemma {:induction false} CodeOfUpper(sur: seq<string>, dado: string)
    requires forall k :: 0 <= k < |sur| ==> IsUpper(sur[k])
    requires IsUpper(dado)
    ensures |sur| == 0 ==> Code(sur, dado) == Ok(Take(dado, 3))
    ensures |sur| == 1 ==> Code(sur, dado) == Ok(Take(sur[0], 2) + Take(dado, 2))
    ensures |sur| >= 2 && dado != [] ==>
      Code(sur, dado) == Ok(Take(sur[0], 2) + Take(sur[1], 2) + [dado[0]])
    ensures |sur| >= 2 && dado == [] ==> Code(sur, dado) == Err(IndexError)
  {
    if |sur| == 0 {
      UpperTake(dado, 3);
      UpperOfUpper(Take(dado, 3));
    } else if |sur| == 1 {
      UpperTake(sur[0], 2);
      UpperTake(dado, 2);
      UpperOfUpper(Take(sur[0], 2) + Take(dado, 2));
    } else if dado != [] {
      UpperTake(sur[0], 2);
      UpperTake(sur[1], 2);
      UpperOfUpper(Take(sur[0], 2) + Take(sur[1], 2) + [dado[0]]);
    }
  }

  // ----- failure and length -----

  /** `generar_id` raises exactly for a comma form with two or more surnames
      and nothing after the comma. */
  lemma {:induction false} FailsExactly(s: string)
    ensures var n := Normalise(s);
      GenerarId(s).Err? <==>
        (',' in n && |Words(n[..FirstComma(n)])| >= 2 && Strip(n[FirstComma(n) + 1..]) == [])
  {
    var n := Normalise(s);
    assert GenerarId(s) == IdOf(n);
    IdOfFails(n);
  }

  lemma {:induction false} IdOfFails(n: string)
    ensures IdOf(n).Err? <==>
      (',' in n && |Words(n[..FirstComma(n)])| >= 2 && Strip(n[FirstComma(n) + 1..]) == [])
  {
    if ',' in n {
      var i := FirstComma(n);
      SegmentComma(n);
      CodeFails(Words(n[..i]), Strip(n[i + 1..]));
    } else {
      var ws := Words(n);
      SegmentNoComma(n);
      if |ws| >= 3 {
        CodeFails(ws[..|ws| - 1], ws[|ws| - 1]);
      }
    }
  }

  /** `Code` raises exactly when two surnames meet an empty given name. */
  lemma CodeFails(sur: seq<string>, dado: string)
    ensures Code(sur, dado).Err? <==> |sur| >= 2 && dado == []
  {
  }

  /** `Code` reaches five characters exactly from two surnames of two
      letters or more and a non-empty given name. */
  lemma CodeLength(sur: seq<string>, dado: string)
    requires Code(sur, dado).Ok?
    ensures |Code(sur, dado).value| == 5 <==>
      |sur| >= 2 && |sur[0]| >= 2 && |sur[1]| >= 2 && dado != []
  {
  }

  /** The code has five characters exactly when there are two surnames of
      at least two letters each and a non-empty given name. */
  lemma {:induction false} FullLengthCode(s: string)
    requires GenerarId(s).Ok?
    ensures |GenerarId(s).value| == 5 <==>
      match Segment(Normalise(s))
      case Parts(sur, dado) => |sur| >= 2 && |sur[0]| >= 2 && |sur[1]| >= 2 && dado != []
      case Fallback(_) => false
  {
    var n := Normalise(s);
    assert GenerarId(s) == IdOf(n);
    IdOfLength(n);
  }

  lemma {:induction false} IdOfLength(n: string)
    requires IdOf(n).Ok?
    ensures |IdOf(n).value| == 5 <==>
      match Segment(n)
      case Parts(sur, dado) => |sur| >= 2 && |sur[0]| >= 2 && |sur[1]| >= 2 && dado != []
      case Fallback(_) => false
  {
    SegmentLength(Segment(n));
  }

  lemma SegmentLength(seg: Segmentation)
    requires SegmentCode(seg).Ok?
    ensures |SegmentCode(seg).value| == 5 <==>
      match seg
      case Parts(sur, dado) => |sur| >= 2 && |sur[0]| >= 2 && |sur[1]| >= 2 && dado != []
      case Fallback(_) => false
  {
    if seg.Parts? {
      CodeLength(seg.surnames, seg.given);
    }
  }

  // ----- worked examples -----

  /** A name written given-name-first: the last token, "Fontecha", is read
      as the given name, so the code starts with "JO" and "GA" and ends
      with "F". */
  lemma JoseGarciaFontecha()
    ensures GenerarId("Jose Garcia Fontecha") == Ok("JOGAF")
  {
    JoseGarciaFontechaNormalised();
    JoseGarciaFontechaNoComma();
    JoseGarciaFontechaWords();
    JoseGarciaFontechaCode();
    ThreeOrMoreTokens("Jose Garcia Fontecha");
  }

  lemma JoseGarciaFontechaUpper()
    ensures Upper("Jose Garcia Fontecha") == "JOSE GARCIA FONTECHA"
  {
  }

  lemma JoseGarciaFontechaNormalised()
    ensures Normalise("Jose Garcia Fontecha") == "JOSE GARCIA FONTECHA"
  {
    JoseGarciaFontechaUpper();
    StripTrimmed("JOSE GARCIA FONTECHA");
  }

  lemma JoseGarciaFontechaNoComma()
    ensures ',' !in "JOSE GARCIA FONTECHA"
  {
  }

  lemma JoseGarciaFontechaWords()
    ensures Words("JOSE GARCIA FONTECHA") == ["JOSE", "GARCIA", "FONTECHA"]
  {
    JoseGarciaFontechaJoin();
    JoinRoundTrip(["JOSE", "GARCIA", "FONTECHA"]);
  }

  lemma JoseGarciaFontechaJoin()
    ensures Join(["JOSE", "GARCIA", "FONTECHA"]) == "JOSE GARCIA FONTECHA"
  { }

  lemma JoseGarciaFontechaCode()
    ensures var ws := ["JOSE", "GARCIA", "FONTECHA"];
      Take(ws[0], 2) + Take(ws[1], 2) + [ws[|ws| - 1][0]] == "JOGAF"
  {
  }

  /** Likewise "Ana Lopez Ruiz" gives "ANLOR": "Ruiz" is read as the given
      name. */
  lemma AnaLopezRuiz()
    ensures GenerarId("Ana Lopez Ruiz") == Ok("ANLOR")
  {
    AnaLopezRuizNormalised();
    AnaLopezRuizNoComma();
    AnaLopezRuizWords();
    AnaLopezRuizCode();
    ThreeOrMoreTokens("Ana Lopez Ruiz");
  }

  lemma AnaLopezRuizUpper()
    ensures Upper("Ana Lopez Ruiz") == "ANA LOPEZ RUIZ"
  {
  }

  lemma AnaLopezRuizNormalised()
    ensures Normalise("Ana Lopez Ruiz") == "ANA LOPEZ RUIZ"
  {
    AnaLopezRuizUpper();
    StripTrimmed("ANA LOPEZ RUIZ");
  }

  lemma AnaLopezRuizNoComma()
    ensures ',' !in "ANA LOPEZ RUIZ"
  {
  }

  lemma AnaLopezRuizWords()
    ensures Words("ANA LOPEZ RUIZ") == ["ANA", "LOPEZ", "RUIZ"]
  {
    AnaLopezRuizJoin();
    JoinRoundTrip(["ANA", "LOPEZ", "RUIZ"]);
  }

  lemma AnaLopezRuizJoin()
    ensures Join(["ANA", "LOPEZ", "RUIZ"]) == "ANA LOPEZ RUIZ"
  { }

  lemma AnaLopezRuizCode()
    ensures var ws := ["ANA", "LOPEZ", "RUIZ"];
      Take(ws[0], 2) + Take(ws[1], 2) + [ws[|ws| - 1][0]] == "ANLOR"
  {
  }
}
