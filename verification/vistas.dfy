/**
 The request handlers of app/views.py that carry business rules: the
 attendance form (`registrar_asistencia`) and the rows of the two Excel
 exports (`exportar_resumen_excel`, `exportar_asistencia_excel`). A sheet is
 modelled as its sequence of rows, each a sequence of cell texts; fonts,
 widths, the table object and the HTTP response are left out.
 */
module Vistas {
  import opened Wrappers
  import opened Texto
  import opened Models
  import opened Orden
  import opened Asistencia
  import opened Reporte

  // ---------------------------------------------------------------------------
  // The attendance form

  /** A request to the form: a plain GET, or a POST with the form fields (ids already parsed). */
  datatype Peticion =
    | Get
    | Post(empleadoId: int, tipoId: int, descripcion: Option<string>, fingerprint: Option<string>)

  /** The level a flash message is added with: `messages.warning`, `.error` or `.success`. */
  datatype Nivel = Advertencia | Error | Exito

  datatype Mensaje = Mensaje(nivel: Nivel, texto: string)

  /**
   What the handler renders: the form with the catalogue, the success page,
   or nothing at all when an id lookup raises `DoesNotExist`, which the
   handler does not catch (the framework answers with a server error).
   */
  datatype Respuesta =
    | Formulario(empleados: seq<Empleado>, tipos: seq<TipoAsistencia>, mensajes: seq<Mensaje>)
    | AsistenciaExitosa(fecha: FechaValida, hora: Hora, empleado: Empleado, mensajes: seq<Mensaje>)
    | ErrorNoEncontrado

  /**
   `registrar_asistencia`, with the local date and time passed in. A GET shows
   the form. A POST stores an empty description for a missing one, looks up
   the employee and the type, refuses a repeated once-a-day punch with a
   warning, then a device another employee used that day with an error, and
   otherwise stores one record and shows the success page. The stored record
   is the posted employee's punch of the posted type, at the given date and
   time, with the posted fingerprint.
   */
  function RegistrarAsistencia(db: Db, p: Peticion, fecha: FechaValida, hora: Hora): (out: (Respuesta, Db))
    ensures out.1.empleados == db.empleados && out.1.tipos == db.tipos
    ensures p.Get? ==> out == (Formulario(db.empleados, db.tipos, []), db)
    ensures out.0.Formulario? ==> out.0.empleados == db.empleados && out.0.tipos == db.tipos
    ensures !out.0.AsistenciaExitosa? ==> out.1 == db
    ensures out.0.AsistenciaExitosa? ==>
      && p.Post?
      && out.0.fecha == fecha && out.0.hora == hora
      && |out.1.registros| == |db.registros| + 1
      && out.1.registros[..|db.registros|] == db.registros
      && var r := out.1.registros[|db.registros|];
      && r.empleado == out.0.empleado
      && r.empleado in db.empleados && r.empleado.idEmpleado == p.empleadoId
      && r.tipo in db.tipos && r.tipo.idTipo == p.tipoId
      && r.fecha == fecha && r.hora == hora
      && r.descripcion == Some(p.descripcion.GetOr(""))
      && r.fingerprint == p.fingerprint
  {
    match p
    case Get => (Formulario(db.empleados, db.tipos, []), db)
    case Post(empleadoId, tipoId, d, fp) =>
      var descripcion := Some(d.GetOr(""));
      var oe, ot := BuscarEmpleado(db.empleados, empleadoId), BuscarTipo(db.tipos, tipoId);
      if oe.None? || ot.None? then
        (ErrorNoEncontrado, db)
      else
        var e, t := oe.value, ot.value;
        if EsUnico(t) && ExisteRegistro(db.registros, e, t, fecha) then
          (Formulario(db.empleados, db.tipos, [Mensaje(Advertencia, MensajeDuplicado(t))]), db)
        else if ExisteDispositivoAjeno(db.registros, e, fp, fecha) then
          (Formulario(db.empleados, db.tipos, [Mensaje(Error, MensajeDispositivo)]), db)
        else
          var r := Registro(e, t, fecha, hora, descripcion, fp);
          (AsistenciaExitosa(fecha, hora, e, [Mensaje(Exito, MensajeRegistrado(t))]),
           db.(registros := db.registros + [r]))
  }

  /**
   On a POST the handler decides exactly as the service does, given the
   description it stores: the same tables afterwards, the success page
   exactly when the service succeeds, the uncaught error exactly when a
   lookup fails, and otherwise the form with the service's message as its
   only message: a warning for a repeated once-a-day punch, an error for a
   device another employee used.
   */
  lemma VistaComoServicio(
    db: Db, empleadoId: int, tipoId: int, d: Option<string>, fp: Option<string>,
    fecha: FechaValida, hora: Hora)
    ensures
      var (resp, db1) := RegistrarAsistencia(db, Post(empleadoId, tipoId, d, fp), fecha, hora);
      var (c, db2) := CrearRegistroAsistencia(db, empleadoId, tipoId, Some(d.GetOr("")), fp, fecha, hora);
      && db1 == db2
      && (resp.AsistenciaExitosa? <==> c.exito)
      && (resp.ErrorNoEncontrado? <==>
            BuscarEmpleado(db.empleados, empleadoId).None? || BuscarTipo(db.tipos, tipoId).None?)
      && (resp.AsistenciaExitosa? ==>
            resp.mensajes == [Mensaje(Exito, c.mensaje)] && c.registro.Some?
            && c.registro.value.empleado == resp.empleado)
      && (resp.Formulario? ==> |resp.mensajes| == 1 && resp.mensajes[0].texto == c.mensaje)
      && (resp.Formulario? ==>
            var e, t := BuscarEmpleado(db.empleados, empleadoId).value, BuscarTipo(db.tipos, tipoId).value;
            var duplicado := EsUnico(t) && ExisteRegistro(db.registros, e, t, fecha);
            && (resp.mensajes[0].nivel == Advertencia <==> duplicado)
            && (resp.mensajes[0].nivel == Error <==> !duplicado))
  {
  }

  /** The form handler keeps the table invariants, whatever it answers. */
  lemma RegistrarPreservaInvariante(db: Db, p: Peticion, fecha: FechaValida, hora: Hora)
    requires Invariante(db)
    ensures Invariante(RegistrarAsistencia(db, p, fecha, hora).1)
  {
    if p.Post? {
      VistaComoServicio(db, p.empleadoId, p.tipoId, p.descripcion, p.fingerprint, fecha, hora);
      CrearPreservaInvariante(db, p.empleadoId, p.tipoId, Some(p.descripcion.GetOr("")), p.fingerprint, fecha, hora);
    }
  }

  // ---------------------------------------------------------------------------
  // Sheets

  /** A worksheet as the exports fill it: a header row, then the data rows. */
  datatype Hoja<F> = Hoja(encabezados: seq<string>, filas: seq<F>)

  // ---------------------------------------------------------------------------
  // The daily summary sheet

  const EncabezadosResumen: seq<string> := [
    "Empleado", "Fecha", "Tiempo de Almuerzo",
    "Horas por Comisión", "Horas por Permiso (Otros)",
    "Horas Trabajadas Totales"
  ]

  /** The header of each summary column. */
  lemma ColumnasResumen()
    ensures && EncabezadosResumen[0] == "Empleado" && EncabezadosResumen[1] == "Fecha"
            && EncabezadosResumen[2] == "Tiempo de Almuerzo" && EncabezadosResumen[3] == "Horas por Comisión"
            && EncabezadosResumen[4] == "Horas por Permiso (Otros)" && EncabezadosResumen[5] == "Horas Trabajadas Totales"
  {
  }

  /** One summary row: employee, date, then lunch, errands, leave and worked time. */
  datatype FilaDia = FilaDia(
    empleado: string, fecha: string,
    almuerzo: string, comision: string, permiso: string, trabajadas: string)
  {
    /** The cells in column order. */
    function Celdas(): (c: seq<string>)
      ensures |c| == |EncabezadosResumen|
    {
      [empleado, fecha, almuerzo, comision, permiso, trabajadas]
    }
  }

  lemma CeldasDia(f: FilaDia)
    ensures var c := f.Celdas();
      && c[0] == f.empleado && c[1] == f.fecha && c[2] == f.almuerzo
      && c[3] == f.comision && c[4] == f.permiso && c[5] == f.trabajadas
  {
  }

  /** The summary row of an employee's day with durations `h`. */
  function FilaDeHoras(g: DatosDia, h: Horas): FilaDia {
    var t := TextoHoras(h);
    FilaDia(EmpleadoStr(g.empleado), FormatoFecha(g.fecha), t.almuerzo, t.comision, t.permiso, t.trabajadas)
  }

  /**
   A summary row reads back as its entry, column by column under the header:
   the employee's display name, the date, and each duration rounded down to
   the minute.
   */
  lemma FilaDeHorasLee(g: DatosDia, h: Horas)
    ensures var c := FilaDeHoras(g, h).Celdas();
      && EncabezadosResumen[0] == "Empleado" && c[0] == EmpleadoStr(g.empleado)
      && EncabezadosResumen[1] == "Fecha" && LeerFecha(c[1]) == Some(g.fecha)
      && EncabezadosResumen[2] == "Tiempo de Almuerzo"
      && LeerDuracion(c[2]) == Some(h.almuerzo - h.almuerzo % 60)
      && EncabezadosResumen[3] == "Horas por Comisión"
      && LeerDuracion(c[3]) == Some(h.comision - h.comision % 60)
      && EncabezadosResumen[4] == "Horas por Permiso (Otros)"
      && LeerDuracion(c[4]) == Some(h.permiso - h.permiso % 60)
      && EncabezadosResumen[5] == "Horas Trabajadas Totales"
      && LeerDuracion(c[5]) == Some(h.trabajadas - h.trabajadas % 60)
  {
    var fila := FilaDeHoras(g, h);
    CeldasDia(fila);
    ColumnasResumen();
    LeerFormatoFecha(g.fecha);
    LeerTextoHoras(h);
  }

  /** The summary row of one entry: its durations as `calcular_horas_empleado` derives them. */
  function FilaResumen(et: EtiquetasAlmuerzo, g: DatosDia): FilaDia
    requires ListasNoVacias(g.tiempos)
  {
    FilaDeHoras(g, CalcularHoras(et, g.tiempos))
  }

  /**
   The rows `exportar_resumen_excel` appends: the header, then one row per
   entry of the summary, in the summary's order.
   */
  function ExportarResumen(rs: seq<Registro>, et: EtiquetasAlmuerzo): (hoja: Hoja<FilaDia>)
    ensures var gs := ObtenerDatosResumen(rs);
      && hoja.encabezados == EncabezadosResumen
      && |hoja.filas| == |gs|
      && forall i :: 0 <= i < |gs| ==> ListasNoVacias(gs[i].tiempos) && hoja.filas[i] == FilaResumen(et, gs[i])
  {
    var gs := ObtenerDatosResumen(rs);
    ObtenerDatosResumenCorrecto(rs);
    Hoja(EncabezadosResumen, seq(|gs|, i requires 0 <= i < |gs| => FilaResumen(et, gs[i])))
  }

  /**
   Every record's employee and date has exactly one summary row, and each row
   shows its entry's employee and date, which are those of a record of the
   entry's key (`ObtenerDatosResumenCorrecto`). Its four duration columns are
   those the hours calculation derives from the entry's lists, where a label
   is present exactly when a record of the key has that type, and its first
   time is the earliest such punch.
   */
  lemma ExportarResumenCorrecto(rs: seq<Registro>, et: EtiquetasAlmuerzo)
    ensures var gs, filas := ObtenerDatosResumen(rs), ExportarResumen(rs, et).filas;
      && (forall r :: r in rs ==>
            exists i :: 0 <= i < |gs| && gs[i].clave == ClaveDe(r) && filas[i].fecha == FormatoFecha(r.fecha))
      && (forall i, j :: 0 <= i < j < |gs| ==> gs[i].clave != gs[j].clave)
      && (forall i :: 0 <= i < |gs| ==>
            filas[i].empleado == EmpleadoStr(gs[i].empleado) && LeerFecha(filas[i].fecha) == Some(gs[i].fecha))
      && (forall i :: 0 <= i < |gs| ==>
            && ListasNoVacias(gs[i].tiempos)
            && var t := TextoHoras(CalcularHoras(et, gs[i].tiempos));
            && filas[i].almuerzo == t.almuerzo && filas[i].comision == t.comision
            && filas[i].permiso == t.permiso && filas[i].trabajadas == t.trabajadas)
      && (forall i, l :: 0 <= i < |gs| ==>
            && (l in gs[i].tiempos <==> Marcado(rs, gs[i].clave, l))
            && (l in gs[i].tiempos ==>
                  gs[i].tiempos[l] != [] && PrimeraMarca(rs, gs[i].clave, l, gs[i].tiempos[l][0])))
  {
    var gs, filas := ObtenerDatosResumen(rs), ExportarResumen(rs, et).filas;
    ObtenerDatosResumenCorrecto(rs);
    ResumenPrimerasMarcas(rs);
    forall r | r in rs
      ensures exists i :: 0 <= i < |gs| && gs[i].clave == ClaveDe(r) && filas[i].fecha == FormatoFecha(r.fecha)
    {
      var i :| 0 <= i < |gs| && gs[i].clave == ClaveDe(r);
      assert gs[i].fecha == r.fecha by {
        var k :| 0 <= k < |rs| && Origen(rs[k], gs[i]);
      }
      assert filas[i] == FilaResumen(et, gs[i]);
    }
    forall i | 0 <= i < |gs|
      ensures filas[i].empleado == EmpleadoStr(gs[i].empleado) && LeerFecha(filas[i].fecha) == Some(gs[i].fecha)
    {
      assert filas[i] == FilaResumen(et, gs[i]);
      LeerFormatoFecha(gs[i].fecha);
    }
  }

  // ---------------------------------------------------------------------------
  // The attendance sheet

  const EncabezadosAsistencia: seq<string> := [
    "Empleado", "Tipo de Asistencia", "Fecha", "Hora", "Descripción", "ID Dispositivo"
  ]

  /** Date and time as an integer key. */
  function Momento(r: Registro): seq<int> {
    [r.fecha.anio, r.fecha.mes, r.fecha.dia, r.hora]
  }

  /** `order_by('-fecha_registro', '-hora_registro')`: the date-and-time key, negated. */
  function ClaveExportacion(r: Registro): seq<int> {
    Negar(Momento(r))
  }

  /** Record `a` was taken no later than record `b`: an earlier date, or the same date and no later time. */
  predicate NoPosterior(a: Registro, b: Registro) {
    || a.fecha.anio < b.fecha.anio
    || (a.fecha.anio == b.fecha.anio && a.fecha.mes < b.fecha.mes)
    || (a.fecha.anio == b.fecha.anio && a.fecha.mes == b.fecha.mes && a.fecha.dia < b.fecha.dia)
    || (a.fecha == b.fecha && a.hora <= b.hora)
  }

  /** The lexicographic order on `Momento` keys is the order in time. */
  lemma MomentoOrden(a: Registro, b: Registro)
    ensures LexLe(Momento(a), Momento(b)) <==> NoPosterior(a, b)
  {
    var ka, kb := Momento(a), Momento(b);
    var ka1, kb1 := [a.fecha.mes, a.fecha.dia, a.hora], [b.fecha.mes, b.fecha.dia, b.hora];
    var ka2, kb2 := [a.fecha.dia, a.hora], [b.fecha.dia, b.hora];
    var ka3, kb3 := [a.hora], [b.hora];
    assert ka3[1..] == [] && kb3[1..] == [];
    assert LexLe(ka3, kb3) <==> a.hora <= b.hora;
    assert ka2[1..] == ka3 && kb2[1..] == kb3;
    assert LexLe(ka2, kb2) <==> a.fecha.dia < b.fecha.dia || (a.fecha.dia == b.fecha.dia && a.hora <= b.hora);
    assert ka1[1..] == ka2 && kb1[1..] == kb2;
    assert ka[1..] == ka1 && kb[1..] == kb1;
  }

  /** The records in the order the attendance sheet lists them. */
  function RegistrosExportados(rs: seq<Registro>): (os: seq<Registro>)
    ensures multiset(os) == multiset(rs)
    ensures forall i, j :: 0 <= i < j < |os| ==> NoPosterior(os[j], os[i])
  {
    var os := Ordenar(rs, ClaveExportacion);
    forall i, j | 0 <= i < j < |os|
      ensures NoPosterior(os[j], os[i])
    {
      assert LexLe(ClaveExportacion(os[i]), ClaveExportacion(os[j]));
      LexLeNegado(Momento(os[i]), Momento(os[j]));
      MomentoOrden(os[j], os[i]);
    }
    os
  }

  /** The header of each attendance column. */
  lemma ColumnasAsistencia()
    ensures && EncabezadosAsistencia[0] == "Empleado" && EncabezadosAsistencia[1] == "Tipo de Asistencia"
            && EncabezadosAsistencia[2] == "Fecha" && EncabezadosAsistencia[3] == "Hora"
            && EncabezadosAsistencia[4] == "Descripción" && EncabezadosAsistencia[5] == "ID Dispositivo"
  {
  }

  /** One attendance row. */
  datatype FilaRegistro = FilaRegistro(
    empleado: string, tipo: string, fecha: string, hora: string,
    descripcion: string, dispositivo: string)
  {
    /** The cells in column order. */
    function Celdas(): (c: seq<string>)
      ensures |c| == |EncabezadosAsistencia|
    {
      [empleado, tipo, fecha, hora, descripcion, dispositivo]
    }
  }

  lemma CeldasRegistro(f: FilaRegistro)
    ensures var c := f.Celdas();
      && c[0] == f.empleado && c[1] == f.tipo && c[2] == f.fecha
      && c[3] == f.hora && c[4] == f.descripcion && c[5] == f.dispositivo
  {
  }

  /** The attendance row of a record; a missing description or fingerprint is written as an empty cell. */
  function FilaAsistencia(r: Registro): FilaRegistro {
    FilaRegistro(EmpleadoStr(r.empleado), r.tipo.nombreAsistencia, FormatoFecha(r.fecha), FormatoHora(r.hora),
      r.descripcion.GetOr(""), r.fingerprint.GetOr(""))
  }

  /**
   An attendance row reads back as its record, column by column under the
   header: the display name, the type's label, the date, the time field by
   field, and the description and fingerprint as stored, a missing one as an
   empty cell.
   */
  lemma FilaAsistenciaLee(r: Registro)
    ensures var c := FilaAsistencia(r).Celdas();
      && EncabezadosAsistencia[0] == "Empleado" && c[0] == EmpleadoStr(r.empleado)
      && EncabezadosAsistencia[1] == "Tipo de Asistencia" && c[1] == r.tipo.nombreAsistencia
      && EncabezadosAsistencia[2] == "Fecha" && LeerFecha(c[2]) == Some(r.fecha)
      && EncabezadosAsistencia[3] == "Hora" && |c[3]| == 8
      && LeerNatural(c[3][0..2]) == Some(r.hora / 3600)
      && LeerNatural(c[3][3..5]) == Some(r.hora % 3600 / 60)
      && LeerNatural(c[3][6..8]) == Some(r.hora % 60)
      && LeerHora(c[3]) == Some(r.hora)
      && EncabezadosAsistencia[4] == "Descripción"
      && (r.descripcion.Some? ==> c[4] == r.descripcion.value)
      && (r.descripcion.None? ==> c[4] == "")
      && EncabezadosAsistencia[5] == "ID Dispositivo"
      && (r.fingerprint.Some? ==> c[5] == r.fingerprint.value)
      && (r.fingerprint.None? ==> c[5] == "")
  {
    var fila := FilaAsistencia(r);
    CeldasRegistro(fila);
    ColumnasAsistencia();
    LeerFormatoFecha(r.fecha);
    LeerFormatoHora(r.hora);
  }

  /**
   The rows `exportar_asistencia_excel` appends: the header, then one row per
   record, newest first.
   */
  function ExportarAsistencia(rs: seq<Registro>): (hoja: Hoja<FilaRegistro>)
    ensures hoja.encabezados == EncabezadosAsistencia
    ensures |hoja.filas| == |rs|
    ensures var os := RegistrosExportados(rs);
      forall i :: 0 <= i < |os| ==> hoja.filas[i] == FilaAsistencia(os[i])
  {
    var os := RegistrosExportados(rs);
    assert |os| == |rs| by {
      assert |multiset(os)| == |multiset(rs)|;
    }
    Hoja(EncabezadosAsistencia, seq(|os|, i requires 0 <= i < |os| => FilaAsistencia(os[i])))
  }

  /**
   Every record has its row in the attendance sheet, and every row is the row
   of a record.
   */
  lemma ExportarAsistenciaCorrecto(rs: seq<Registro>)
    ensures var os, filas := RegistrosExportados(rs), ExportarAsistencia(rs).filas;
      && (forall r :: r in rs ==> FilaAsistencia(r) in filas)
      && (forall i :: 0 <= i < |os| ==> os[i] in rs)
  {
    AsistenciaCompleta(rs);
    var os := RegistrosExportados(rs);
    forall i | 0 <= i < |os|
      ensures os[i] in rs
    {
      assert os[i] in multiset(rs);
    }
  }

  lemma AsistenciaCompleta(rs: seq<Registro>)
    ensures forall r :: r in rs ==> FilaAsistencia(r) in ExportarAsistencia(rs).filas
  {
    var os, filas := RegistrosExportados(rs), ExportarAsistencia(rs).filas;
    forall r | r in rs
      ensures FilaAsistencia(r) in filas
    {
      assert r in multiset(os);
      var k :| 0 <= k < |os| && os[k] == r;
      assert filas[k] == FilaAsistencia(r);
    }
  }
}
