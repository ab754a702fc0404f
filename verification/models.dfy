/**
 The three record kinds of the attendance database (app/models.py): employees,
 attendance types and attendance records, with their column constraints and
 display strings, plus the calendar dates and times of day the records carry.
 */
module Models {
  import opened Wrappers
  import opened Texto

  // ---------------------------------------------------------------------------
  // Dates and times

  /** A calendar date, as a DateField holds it. */
  datatype Fecha = Fecha(anio: int, mes: int, dia: int) {

    /** Within the range of Python's `datetime.date`, and a real day of its month. */
    predicate Valida() {
      1 <= anio <= 9999 && 1 <= mes <= 12 && 1 <= dia <= DiasDelMes(anio, mes)
    }
  }

  type FechaValida = f: Fecha | f.Valida() witness Fecha(2000, 1, 1)

  predicate Bisiesto(anio: int) {
    anio % 4 == 0 && (anio % 100 != 0 || anio % 400 == 0)
  }

  function DiasDelMes(anio: int, mes: int): (n: int)
    requires 1 <= mes <= 12
    ensures 28 <= n <= 31
  {
    if mes == 2 then (if Bisiesto(anio) then 29 else 28)
    else if mes == 4 || mes == 6 || mes == 9 || mes == 11 then 30
    else 31
  }

  /**
   A time of day, as a TimeField holds it, in whole seconds since midnight
   (sub-second precision is not modelled).
   */
  type Hora = t: int | 0 <= t < 86400

  /** `str(fecha)` and `fecha.strftime('%Y-%m-%d')`: "YYYY-MM-DD". */
  function FormatoFecha(f: FechaValida): (s: string)
    ensures |s| == 10 && s[4] == '-' && s[7] == '-'
  {
    Pot10Valores();
    FormatoFijo(f.anio, 4) + "-" + FormatoFijo(f.mes, 2) + "-" + FormatoFijo(f.dia, 2)
  }

  /** Reads "YYYY-MM-DD" back into its three fields. */
  function LeerFecha(s: string): Option<Fecha> {
    if |s| != 10 || s[4] != '-' || s[7] != '-' then None
    else
      match (LeerNatural(s[..4]), LeerNatural(s[5..7]), LeerNatural(s[8..]))
      case (Some(a), Some(m), Some(d)) => Some(Fecha(a, m, d))
      case _ => None
  }

  /** The date printed in a report cell is the date stored. */
  lemma LeerFormatoFecha(f: FechaValida)
    ensures LeerFecha(FormatoFecha(f)) == Some(f)
  {
    Pot10Valores();
    var a, m, d := FormatoFijo(f.anio, 4), FormatoFijo(f.mes, 2), FormatoFijo(f.dia, 2);
    var s := FormatoFecha(f);
    assert s == a + "-" + m + "-" + d;
    PartesFecha(a, m, d);
    LeerFormatoFijo(f.anio, 4);
    LeerFormatoFijo(f.mes, 2);
    LeerFormatoFijo(f.dia, 2);
    LeerTrozo(s, 0, 4, a);
    LeerTrozo(s, 5, 7, m);
    LeerTrozo(s, 8, 10, d);
    LeerFechaCampos(s, f);
  }

  lemma PartesFecha(a: string, m: string, d: string)
    requires |a| == 4 && |m| == 2 && |d| == 2
    ensures var s := a + "-" + m + "-" + d;
      s[0..4] == a && s[5..7] == m && s[8..10] == d
  {
  }

  lemma LeerFechaCampos(s: string, f: Fecha)
    requires |s| == 10 && s[4] == '-' && s[7] == '-'
    requires LeerNatural(s[0..4]) == Some(f.anio)
    requires LeerNatural(s[5..7]) == Some(f.mes)
    requires LeerNatural(s[8..10]) == Some(f.dia)
    ensures LeerFecha(s) == Some(f)
  {
    assert s[..4] == s[0..4] && s[8..] == s[8..10];
  }

  /** `str(hora)` and `hora.strftime('%H:%M:%S')`: "HH:MM:SS". */
  function FormatoHora(t: Hora): (s: string)
    ensures |s| == 8 && s[2] == ':' && s[5] == ':'
  {
    Pot10Valores();
    FormatoFijo(t / 3600, 2) + ":" + FormatoFijo(t % 3600 / 60, 2) + ":" + FormatoFijo(t % 60, 2)
  }

  /** Reads "HH:MM:SS" back into seconds since midnight. */
  function LeerHora(s: string): Option<int> {
    if |s| != 8 || s[2] != ':' || s[5] != ':' then None
    else
      match (LeerNatural(s[..2]), LeerNatural(s[3..5]), LeerNatural(s[6..]))
      case (Some(h), Some(m), Some(x)) => Some(h * 3600 + m * 60 + x)
      case _ => None
  }

  /**
   The time printed in an export cell is the time stored: hours, minutes and
   seconds each read back from their own two-digit field.
   */
  lemma LeerFormatoHora(t: Hora)
    ensures var s := FormatoHora(t);
      && LeerNatural(s[0..2]) == Some(t / 3600)
      && LeerNatural(s[3..5]) == Some(t % 3600 / 60)
      && LeerNatural(s[6..8]) == Some(t % 60)
    ensures LeerHora(FormatoHora(t)) == Some(t)
  {
    Pot10Valores();
    var h, m, x := FormatoFijo(t / 3600, 2), FormatoFijo(t % 3600 / 60, 2), FormatoFijo(t % 60, 2);
    var s := FormatoHora(t);
    assert s == h + ":" + m + ":" + x;
    PartesHora(h, m, x);
    LeerFormatoFijo(t / 3600, 2);
    LeerFormatoFijo(t % 3600 / 60, 2);
    LeerFormatoFijo(t % 60, 2);
    LeerTrozo(s, 0, 2, h);
    LeerTrozo(s, 3, 5, m);
    LeerTrozo(s, 6, 8, x);
    LeerHoraCampos(s, t / 3600, t % 3600 / 60, t % 60);
  }

  lemma PartesHora(h: string, m: string, x: string)
    requires |h| == 2 && |m| == 2 && |x| == 2
    ensures var s := h + ":" + m + ":" + x;
      s[0..2] == h && s[3..5] == m && s[6..8] == x
  {
  }

  lemma LeerHoraCampos(s: string, h: int, m: int, x: int)
    requires |s| == 8 && s[2] == ':' && s[5] == ':'
    requires LeerNatural(s[0..2]) == Some(h)
    requires LeerNatural(s[3..5]) == Some(m)
    requires LeerNatural(s[6..8]) == Some(x)
    ensures LeerHora(s) == Some(h * 3600 + m * 60 + x)
  {
    assert s[..2] == s[0..2] && s[6..] == s[6..8];
  }

  // ---------------------------------------------------------------------------
  // Records

  /** An employee (Empleado); `idEmpleado` is the auto-assigned primary key. */
  datatype Empleado = Empleado(idEmpleado: nat, nombres: string, apellidos: string, dni: int, contrato: string)

  /** An attendance type (TipoAsistencia), e.g. "Entrada" or "Salida por comisión". */
  datatype TipoAsistencia = TipoAsistencia(idTipo: nat, nombreAsistencia: string)

  /**
   One punch (RegistroAsistencia). The employee and the type are held by value,
   as a query with `select_related` delivers them; `None` is a NULL column.
   */
  datatype Registro = Registro(
    empleado: Empleado,
    tipo: TipoAsistencia,
    fecha: FechaValida,
    hora: Hora,
    descripcion: Option<string>,
    fingerprint: Option<string>)

  /** `Empleado.__str__`: given names, one space, surnames. */
  function EmpleadoStr(e: Empleado): (s: string)
    ensures |s| == |e.nombres| + 1 + |e.apellidos|
    ensures s[..|e.nombres|] == e.nombres && s[|e.nombres|] == ' '
    ensures s[|e.nombres| + 1..] == e.apellidos
  {
    e.nombres + " " + e.apellidos
  }

  /**
   `s` is laid out as "<e> - <t> - <f> <h>": each piece at its own slice,
   with the two " - " separators and the space between date and time.
   */
  predicate DisposicionRegistro(s: string, e: string, t: string, f: string, h: string) {
    && |f| == 10 && |h| == 8
    && |s| == |e| + 3 + |t| + 3 + |f| + 1 + |h|
    && s[..|e|] == e
    && s[|e|..|e| + 3] == " - "
    && s[|e| + 3..|e| + 3 + |t|] == t
    && s[|e| + 3 + |t|..|e| + 6 + |t|] == " - "
    && s[|s| - 19..|s| - 9] == f
    && s[|s| - 9] == ' '
    && s[|s| - 8..] == h
  }

  /**
   `RegistroAsistencia.__str__`: "<employee> - <type> - <date> <time>", the
   employee as `EmpleadoStr` writes it; `RegistroStrLee` reads the date and
   the time back.
   */
  function RegistroStr(r: Registro): (s: string)
    ensures DisposicionRegistro(s, EmpleadoStr(r.empleado), r.tipo.nombreAsistencia,
                                FormatoFecha(r.fecha), FormatoHora(r.hora))
  {
    var e, t, f, h := EmpleadoStr(r.empleado), r.tipo.nombreAsistencia, FormatoFecha(r.fecha), FormatoHora(r.hora);
    var s := e + " - " + t + " - " + f + " " + h;
    PartesRegistro(e, t, f, h, s);
    s
  }

  lemma PartesRegistro(e: string, t: string, f: string, h: string, s: string)
    requires |f| == 10 && |h| == 8 && s == e + " - " + t + " - " + f + " " + h
    ensures DisposicionRegistro(s, e, t, f, h)
  {
  }

  /** The date and the time at the end of a record's display string read back as the record's. */
  lemma RegistroStrLee(r: Registro)
    ensures var s := RegistroStr(r);
      && LeerFecha(s[|s| - 19..|s| - 9]) == Some(r.fecha)
      && LeerHora(s[|s| - 8..]) == Some(r.hora)
  {
    LeerFormatoFecha(r.fecha);
    LeerFormatoHora(r.hora);
  }

  // ---------------------------------------------------------------------------
  // Catalogue constraints and lookups

  /** Primary keys and `dni` are unique across employees. */
  predicate EmpleadosUnicos(es: seq<Empleado>) {
    forall i, j :: 0 <= i < j < |es| ==>
      es[i].idEmpleado != es[j].idEmpleado && es[i].dni != es[j].dni
  }

  /** Primary keys and `nombre_asistencia` are unique across attendance types. */
  predicate TiposDistintos(ts: seq<TipoAsistencia>) {
    forall i, j :: 0 <= i < j < |ts| ==>
      ts[i].idTipo != ts[j].idTipo && ts[i].nombreAsistencia != ts[j].nombreAsistencia
  }

  /** `Empleado.objects.get(id_empleado=id)`; None is `DoesNotExist`. */
  function BuscarEmpleado(es: seq<Empleado>, id: int): (r: Option<Empleado>)
    ensures r.Some? ==> r.value in es && r.value.idEmpleado == id
    ensures r.None? <==> forall e :: e in es ==> e.idEmpleado != id
  {
    if |es| == 0 then None
    else if es[0].idEmpleado == id then Some(es[0])
    else BuscarEmpleado(es[1..], id)
  }

  /** `TipoAsistencia.objects.get(id_tipo=id)`; None is `DoesNotExist`. */
  function BuscarTipo(ts: seq<TipoAsistencia>, id: int): (r: Option<TipoAsistencia>)
    ensures r.Some? ==> r.value in ts && r.value.idTipo == id
    ensures r.None? <==> forall t :: t in ts ==> t.idTipo != id
  {
    if |ts| == 0 then None
    else if ts[0].idTipo == id then Some(ts[0])
    else BuscarTipo(ts[1..], id)
  }

  /** In a catalogue with unique keys, the lookup finds the one employee holding the key. */
  lemma BuscarEmpleadoUnico(es: seq<Empleado>, e: Empleado)
    requires EmpleadosUnicos(es) && e in es
    ensures BuscarEmpleado(es, e.idEmpleado) == Some(e)
  {
    var r := BuscarEmpleado(es, e.idEmpleado);
    var i :| 0 <= i < |es| && es[i] == r.value;
    var j :| 0 <= j < |es| && es[j] == e;
    assert i == j;
  }
}
