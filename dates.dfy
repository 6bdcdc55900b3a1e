/**
 * Date stamps and the deadline countdown (js/utils/dates.js). The clock is a parameter:
 * `Reloj` holds what the application reads from `new Date()`, and the parsing of a stored
 * `AAAA/MM/DD HH:MM` stamp by `new Date(...)` is a parameter that gives minutes since
 * the epoch, or `None` for an invalid date.
 */
module DatesUtils {
  import opened Wrappers
  import opened Strings
  import opened Numbers

  /** The local calendar fields of `new Date()`: `getFullYear()`, `getMonth()` (0-based), `getDate()`, `getHours()`, `getMinutes()`. */
  datatype Reloj = Reloj(anio: int, mes: nat, dia: nat, hora: nat, minuto: nat) {
    predicate Valido() {
      mes < 12 && 1 <= dia <= 31 && hora < 24 && minuto < 60
    }
  }

  /** `getTodayDateString`: `AAAA/MM/DD`, month 1-based, month and day padded to two digits. */
  function GetTodayDateString(r: Reloj): string {
    IntToString(r.anio) + "/" + Pad2(r.mes + 1) + "/" + Pad2(r.dia)
  }

  /** `getNowDateTimeString`: `AAAA/MM/DD HH:MM`, every field after the year padded to two digits. */
  function GetNowDateTimeString(r: Reloj): string {
    GetTodayDateString(r) + " " + Pad2(r.hora) + ":" + Pad2(r.minuto)
  }

  lemma NoSlashInDigits(s: string)
    requires AllDigits(s)
    ensures '/' !in s && ' ' !in s && ':' !in s
  {
  }

  /** A date stamp of a year from 0 on is three `/`-separated digit fields: the year, the 1-based month and the day. */
  lemma TodayDateStringParts(r: Reloj)
    requires r.anio >= 0
    ensures Split(GetTodayDateString(r), '/') == [IntToString(r.anio), Pad2(r.mes + 1), Pad2(r.dia)]
  {
    var y, m, d := IntToString(r.anio), Pad2(r.mes + 1), Pad2(r.dia);
    DigitFields(r);
    Split3(y, m, d, '/');
  }

  lemma DigitFields(r: Reloj)
    requires r.anio >= 0
    ensures var y, m, d := IntToString(r.anio), Pad2(r.mes + 1), Pad2(r.dia);
      '/' !in y && '/' !in m && '/' !in d && ' ' !in GetTodayDateString(r)
  {
    Pad2Value(r.mes + 1);
    Pad2Value(r.dia);
    NoSlashInDigits(IntToString(r.anio));
    NoSlashInDigits(Pad2(r.mes + 1));
    NoSlashInDigits(Pad2(r.dia));
    NotInJoin3(' ', IntToString(r.anio), Pad2(r.mes + 1), Pad2(r.dia), '/');
  }

  /**
   * For a valid clock in a four-digit year the date stamp is exactly `AAAA/MM/DD`:
   * ten characters, `/` at positions 4 and 7, and each digit field reads back as the
   * year, the 1-based month and the day.
   */
  lemma TodayDateStringLayout(r: Reloj)
    requires r.Valido() && 1000 <= r.anio <= 9999
    ensures var s := GetTodayDateString(r);
      |s| == 10 && s[4] == '/' && s[7] == '/'
      && AllDigits(s[..4]) && Value(s[..4], 10) == r.anio
      && AllDigits(s[5..7]) && Value(s[5..7], 10) == r.mes + 1
      && AllDigits(s[8..]) && Value(s[8..], 10) == r.dia
  {
    NatToStringValue(r.anio);
    YearHasFourDigits(r.anio);
    Pad2Value(r.mes + 1);
    Pad2Value(r.dia);
    SlashLayout(IntToString(r.anio), Pad2(r.mes + 1), Pad2(r.dia));
  }

  lemma SlashLayout(y: string, m: string, d: string)
    requires |y| == 4 && |m| == 2 && |d| == 2
    ensures var s := y + "/" + m + "/" + d;
      |s| == 10 && s[4] == '/' && s[7] == '/' && s[..4] == y && s[5..7] == m && s[8..] == d
  {
  }

  lemma YearHasFourDigits(y: nat)
    requires 1000 <= y <= 9999
    ensures |NatToString(y)| == 4
  {
    NatToStringLength(y);
    NatToStringLength(y / 10);
    NatToStringLength(y / 100);
    assert y / 10 / 10 == y / 100 && y / 100 / 10 == y / 1000;
  }

  lemma TimeFields(hora: nat, minuto: nat)
    ensures ' ' !in Pad2(hora) && ' ' !in Pad2(minuto) && ':' !in Pad2(hora) && ':' !in Pad2(minuto)
  {
    Pad2Value(hora);
    Pad2Value(minuto);
    NoSlashInDigits(Pad2(hora));
    NoSlashInDigits(Pad2(minuto));
  }

  /** A date-time stamp is the date stamp and `HH:MM`, separated by the one space. */
  lemma NowDateTimeStringParts(r: Reloj)
    requires r.anio >= 0
    ensures Split(GetNowDateTimeString(r), ' ') == [GetTodayDateString(r), Pad2(r.hora) + ":" + Pad2(r.minuto)]
  {
    DigitFields(r);
    TimeFields(r.hora, r.minuto);
    SplitDateTime(GetTodayDateString(r), Pad2(r.hora), Pad2(r.minuto));
  }

  lemma SplitDateTime(d: string, h: string, m: string)
    requires ' ' !in d && ' ' !in h && ' ' !in m
    ensures Split(d + " " + h + ":" + m, ' ') == [d, h + ":" + m]
  {
    var t := h + ":" + m;
    assert ' ' !in t;
    assert d + " " + h + ":" + m == d + [' '] + t;
    Split2(d, t, ' ');
  }

  /** The countdown shown for an active task: `texto` is `HH:MM`, or `-HH:MM` once the deadline has passed. */
  datatype TiempoRestante = TiempoRestante(texto: string, excedido: bool)

  function Abs(x: int): nat {
    if x < 0 then -x else x
  }

  /** `HH:MM` for a number of minutes: hours not wrapped at 24, both fields padded to two digits. */
  function HorasMinutos(totalMinutes: nat): string {
    Pad2(totalMinutes / 60) + ":" + Pad2(totalMinutes % 60)
  }

  /** `t` reads as `totalMinutes`: two `:`-separated digit fields, the minutes exactly two digits below 60, the hours at least two digits. */
  ghost predicate MuestraMinutos(t: string, totalMinutes: nat) {
    var p := Split(t, ':');
    |p| == 2 && AllDigits(p[0]) && AllDigits(p[1])
    && |p[0]| >= 2 && |p[1]| == 2
    && Value(p[1], 10) < 60
    && Value(p[0], 10) * 60 + Value(p[1], 10) == totalMinutes
  }

  lemma MuestraMinutosOf(h: string, m: string, totalMinutes: nat)
    requires AllDigits(h) && AllDigits(m) && ':' !in h && ':' !in m
    requires |h| >= 2 && |m| == 2 && Value(m, 10) < 60
    requires Value(h, 10) * 60 + Value(m, 10) == totalMinutes
    ensures MuestraMinutos(h + ":" + m, totalMinutes)
  {
    Split2(h, m, ':');
  }

  lemma HorasMinutosReadsBack(totalMinutes: nat)
    ensures MuestraMinutos(HorasMinutos(totalMinutes), totalMinutes)
  {
    var hours, minutes := totalMinutes / 60, totalMinutes % 60;
    TimeFields(hours, minutes);
    Pad2Value(hours);
    Pad2Value(minutes);
    MuestraMinutosOf(Pad2(hours), Pad2(minutes), totalMinutes);
  }

  /** The countdown for a distance of `diffMs` milliseconds to the deadline (negative once it has passed). */
  function Restante(diffMs: int): TiempoRestante {
    var texto := HorasMinutos(Abs(diffMs) / 60000);
    TiempoRestante(if diffMs < 0 then "-" + texto else texto, diffMs < 0)
  }

  /** The countdown is exceeded exactly when the deadline has passed, and then carries a `-` before `HH:MM` of the whole minutes. */
  lemma RestanteReadsBack(diffMs: int)
    ensures var r := Restante(diffMs);
      (r.excedido <==> diffMs < 0)
      && (r.excedido ==> |r.texto| > 0 && r.texto[0] == '-')
      && MuestraMinutos(if r.excedido then r.texto[1..] else r.texto, Abs(diffMs) / 60000)
  {
    var texto := HorasMinutos(Abs(diffMs) / 60000);
    HorasMinutosReadsBack(Abs(diffMs) / 60000);
    assert ("-" + texto)[1..] == texto;
  }

  /**
   * `calcularTiempoRestante`: the deadline is the activation instant plus `plazoHoras`
   * hours; the text shows the distance to `ahoraMs` in whole minutes. No activation
   * stamp or a zero `plazoHoras` gives `00:00`; an activation stamp that is not a valid
   * date gives `NaN:NaN`, not exceeded.
   */
  function CalcularTiempoRestante(fechaActivacion: Option<string>, plazoHoras: int, ahoraMs: int,
                                  parseMinutos: string -> Option<int>): (r: TiempoRestante)
    ensures fechaActivacion.None? || fechaActivacion == Some("") || plazoHoras == 0 ==>
      r == TiempoRestante("00:00", false)
    ensures fechaActivacion.Some? && fechaActivacion != Some("") && plazoHoras != 0 ==>
      match parseMinutos(fechaActivacion.value)
      case None => r == TiempoRestante("NaN:NaN", false)
      case Some(activacion) => r == Restante(activacion * 60000 + plazoHoras * 3600000 - ahoraMs)
  {
    if fechaActivacion.None? || fechaActivacion.value == "" || plazoHoras == 0 then
      TiempoRestante("00:00", false)
    else
      match parseMinutos(fechaActivacion.value)
      case None => TiempoRestante("NaN:NaN", false)
      case Some(activacion) =>
        var fechaVencimiento := activacion * 60000 + plazoHoras * 3600000;
        var diffMs := fechaVencimiento - ahoraMs;
        Restante(diffMs)
  }

  /** Exactly at the deadline, and less than a minute before it, the countdown is `00:00` and not exceeded. */
  lemma RestanteZero()
    ensures Restante(0) == TiempoRestante("00:00", false)
  {
    assert Pad2(0) == "00";
  }

  /** Half an hour past the deadline the countdown reads `-00:30`, exceeded. */
  lemma RestanteHalfHourLate()
    ensures Restante(-1800000) == TiempoRestante("-00:30", true)
  {
    assert Abs(-1800000) / 60000 == 30;
    HorasMinutosThirty();
    MinusHalfHour(HorasMinutos(30));
  }

  lemma HorasMinutosThirty()
    ensures HorasMinutos(30) == "00:30"
  {
    PadZero();
    PadThirty();
    HalfHour(Pad2(0), Pad2(30));
  }

  // The literal steps below are kept as lemmas of their own: written inline, the string
  // equalities of `HorasMinutosThirty` and `RestanteHalfHourLate` cost the solver far more.

  lemma PadZero()
    ensures Pad2(0) == "00"
  {
  }

  lemma PadThirty()
    ensures Pad2(30) == "30"
  {
    assert NatToString(3) == "3";
  }

  lemma HalfHour(h: string, m: string)
    requires h == "00" && m == "30"
    ensures h + ":" + m == "00:30"
  {
  }

  lemma MinusHalfHour(t: string)
    requires t == "00:30"
    ensures "-" + t == "-00:30"
  {
  }

  /** Less than a minute past the deadline the countdown reads `-00:00`: exceeded, yet zero minutes. */
  lemma RestanteJustLate()
    ensures Restante(-1) == TiempoRestante("-00:00", true)
  {
    assert Pad2(0) == "00";
  }

  lemma ActivoEn(activacion: int, plazoHoras: int, ahoraMs: int, stamp: string, parseMinutos: string -> Option<int>)
    requires stamp != "" && plazoHoras != 0 && parseMinutos(stamp) == Some(activacion)
    ensures CalcularTiempoRestante(Some(stamp), plazoHoras, ahoraMs, parseMinutos)
      == Restante(activacion * 60000 + plazoHoras * 3600000 - ahoraMs)
  {
    var f := Some(stamp);
    assert f.Some? && f != Some("") && plazoHoras != 0;
    assert parseMinutos(f.value) == Some(activacion);
  }

  /** Exactly at the deadline the countdown is `00:00` and not exceeded. */
  lemma AtDeadlineNotExceeded(activacion: int, plazoHoras: int, stamp: string, parseMinutos: string -> Option<int>)
    requires stamp != "" && plazoHoras != 0 && parseMinutos(stamp) == Some(activacion)
    ensures CalcularTiempoRestante(Some(stamp), plazoHoras, activacion * 60000 + plazoHoras * 3600000, parseMinutos)
      == TiempoRestante("00:00", false)
  {
    RestanteZero();
  }

  /** Activated 90 minutes ago with a one-hour deadline: `-00:30`, exceeded. */
  lemma NinetyMinutesIntoOneHour(activacion: int, stamp: string, parseMinutos: string -> Option<int>)
    requires stamp != "" && parseMinutos(stamp) == Some(activacion)
    ensures CalcularTiempoRestante(Some(stamp), 1, (activacion + 90) * 60000, parseMinutos)
      == TiempoRestante("-00:30", true)
  {
    ActivoEn(activacion, 1, (activacion + 90) * 60000, stamp, parseMinutos);
    RestanteHalfHourLate();
  }

  /** One millisecond past the deadline the countdown reads `-00:00`, exceeded. */
  lemma JustPastDeadline(activacion: int, plazoHoras: int, stamp: string, parseMinutos: string -> Option<int>)
    requires stamp != "" && plazoHoras != 0 && parseMinutos(stamp) == Some(activacion)
    ensures CalcularTiempoRestante(Some(stamp), plazoHoras, activacion * 60000 + plazoHoras * 3600000 + 1, parseMinutos)
      == TiempoRestante("-00:00", true)
  {
    RestanteJustLate();
  }
}
