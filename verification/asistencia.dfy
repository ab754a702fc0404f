/**
 The registration rules of the attendance service (AsistenciaService in
 app/services.py): a punch is refused when it repeats a once-a-day type for
 the same employee and day, or when its device fingerprint was used that day
 by another employee; otherwise exactly one record is stored.
 */
module Asistencia {
  import opened Wrappers
  import opened Models

  /** The attendance types an employee may punch at most once a day. */
  const TiposUnicos: seq<string> := ["Entrada", "Inicio Almuerzo", "Fin Almuerzo", "Salida"]

  predicate EsUnico(t: TipoAsistencia) {
    t.nombreAsistencia in TiposUnicos
  }

  /** The three tables: employees, attendance types and attendance records. */
  datatype Db = Db(empleados: seq<Empleado>, tipos: seq<TipoAsistencia>, registros: seq<Registro>)

  // ---------------------------------------------------------------------------
  // What the two filters look for

  /** Some record has this employee, this type and this date (keys compared, as the ORM filter does). */
  ghost predicate HayRegistro(rs: seq<Registro>, e: Empleado, t: TipoAsistencia, f: Fecha) {
    exists i :: 0 <= i < |rs| && rs[i].empleado.idEmpleado == e.idEmpleado
      && rs[i].tipo.idTipo == t.idTipo && rs[i].fecha == f
  }

  /**
   Some record of this date carries this fingerprint under another employee.
   Fingerprints compare as `Option`s: a missing fingerprint matches another
   missing one, as `filter(fingerprint=None)` is an IS NULL match.
   */
  ghost predicate DispositivoAjeno(rs: seq<Registro>, e: Empleado, fp: Option<string>, f: Fecha) {
    exists i :: 0 <= i < |rs| && rs[i].empleado.idEmpleado != e.idEmpleado
      && rs[i].fingerprint == fp && rs[i].fecha == f
  }

  /** `RegistroAsistencia.objects.filter(empleado=e, tipo=t, fecha_registro=f).exists()` */
  function ExisteRegistro(rs: seq<Registro>, e: Empleado, t: TipoAsistencia, f: Fecha): (r: bool)
    ensures r <==> HayRegistro(rs, e, t, f)
    decreases |rs|
  {
    if |rs| == 0 then false
    else if rs[0].empleado.idEmpleado == e.idEmpleado && rs[0].tipo.idTipo == t.idTipo && rs[0].fecha == f then
      true
    else
      var r := ExisteRegistro(rs[1..], e, t, f);
      assert HayRegistro(rs[1..], e, t, f) ==> HayRegistro(rs, e, t, f) by {
        if HayRegistro(rs[1..], e, t, f) {
          var i :| 0 <= i < |rs[1..]| && rs[1..][i].empleado.idEmpleado == e.idEmpleado
            && rs[1..][i].tipo.idTipo == t.idTipo && rs[1..][i].fecha == f;
          assert rs[i + 1] == rs[1..][i];
        }
      }
      assert HayRegistro(rs, e, t, f) ==> HayRegistro(rs[1..], e, t, f) by {
        if HayRegistro(rs, e, t, f) {
          var i :| 0 <= i < |rs| && rs[i].empleado.idEmpleado == e.idEmpleado
            && rs[i].tipo.idTipo == t.idTipo && rs[i].fecha == f;
          assert i > 0 && rs[1..][i - 1] == rs[i];
        }
      }
      r
  }

  /** `RegistroAsistencia.objects.filter(~Q(empleado=e), fingerprint=fp, fecha_registro=f).exists()` */
  function ExisteDispositivoAjeno(rs: seq<Registro>, e: Empleado, fp: Option<string>, f: Fecha): (r: bool)
    ensures r <==> DispositivoAjeno(rs, e, fp, f)
    decreases |rs|
  {
    if |rs| == 0 then false
    else if rs[0].empleado.idEmpleado != e.idEmpleado && rs[0].fingerprint == fp && rs[0].fecha == f then
      true
    else
      var r := ExisteDispositivoAjeno(rs[1..], e, fp, f);
      assert DispositivoAjeno(rs[1..], e, fp, f) ==> DispositivoAjeno(rs, e, fp, f) by {
        if DispositivoAjeno(rs[1..], e, fp, f) {
          var i :| 0 <= i < |rs[1..]| && rs[1..][i].empleado.idEmpleado != e.idEmpleado
            && rs[1..][i].fingerprint == fp && rs[1..][i].fecha == f;
          assert rs[i + 1] == rs[1..][i];
        }
      }
      assert DispositivoAjeno(rs, e, fp, f) ==> DispositivoAjeno(rs[1..], e, fp, f) by {
        if DispositivoAjeno(rs, e, fp, f) {
          var i :| 0 <= i < |rs| && rs[i].empleado.idEmpleado != e.idEmpleado
            && rs[i].fingerprint == fp && rs[i].fecha == f;
          assert i > 0 && rs[1..][i - 1] == rs[i];
        }
      }
      r
  }

  // ---------------------------------------------------------------------------
  // The service

  /**
   `validar_registro_duplicado`: never for a type outside `TiposUnicos`; for
   one inside, exactly when the employee already punched that type that day.
   */
  function ValidarRegistroDuplicado(rs: seq<Registro>, e: Empleado, t: TipoAsistencia, f: Fecha): (r: bool)
    ensures !EsUnico(t) ==> !r
    ensures EsUnico(t) ==> (r <==> HayRegistro(rs, e, t, f))
  {
    EsUnico(t) && ExisteRegistro(rs, e, t, f)
  }

  /**
   `validar_fingerprint_unico`: exactly when a record of that date carries the
   same fingerprint under a different employee.
   */
  function ValidarFingerprintUnico(rs: seq<Registro>, e: Empleado, fp: Option<string>, f: Fecha): (r: bool)
    ensures r <==> DispositivoAjeno(rs, e, fp, f)
  {
    ExisteDispositivoAjeno(rs, e, fp, f)
  }

  /** The `(success, message, record)` triple `crear_registro_asistencia` returns. */
  datatype Creacion = Creacion(exito: bool, mensaje: string, registro: Option<Registro>)

  const MensajeNoEncontrado: string := "Error: Empleado o tipo de asistencia no encontrado."
  const MensajeDispositivo: string :=
    "Este dispositivo ya ha sido usado para registrar la asistencia de otro empleado hoy."

  function MensajeDuplicado(t: TipoAsistencia): string {
    "Ya registraste \"" + t.nombreAsistencia + "\" hoy."
  }

  function MensajeRegistrado(t: TipoAsistencia): string {
    t.nombreAsistencia + " registrada correctamente."
  }

  /**
   `crear_registro_asistencia`, with the local date and time passed in. Looks
   up the employee and the type, refuses a repeated once-a-day punch, then a
   fingerprint already used by another employee that day, and otherwise
   appends one record. Returns the result triple and the new tables.
   */
  function CrearRegistroAsistencia(
    db: Db, empleadoId: int, tipoId: int,
    descripcion: Option<string>, fingerprint: Option<string>,
    fecha: FechaValida, hora: Hora): (out: (Creacion, Db))
    ensures out.1.empleados == db.empleados && out.1.tipos == db.tipos
    ensures !out.0.exito ==> out.1 == db && out.0.registro.None?
    ensures BuscarEmpleado(db.empleados, empleadoId).None? || BuscarTipo(db.tipos, tipoId).None? ==>
      out.0 == Creacion(false, MensajeNoEncontrado, None)
    ensures
      var oe, ot := BuscarEmpleado(db.empleados, empleadoId), BuscarTipo(db.tipos, tipoId);
      oe.Some? && ot.Some? ==>
        var e, t := oe.value, ot.value;
        && (EsUnico(t) && HayRegistro(db.registros, e, t, fecha) ==>
              out.0 == Creacion(false, MensajeDuplicado(t), None))
        && (!(EsUnico(t) && HayRegistro(db.registros, e, t, fecha))
              && DispositivoAjeno(db.registros, e, fingerprint, fecha) ==>
              out.0 == Creacion(false, MensajeDispositivo, None))
        && (!(EsUnico(t) && HayRegistro(db.registros, e, t, fecha))
              && !DispositivoAjeno(db.registros, e, fingerprint, fecha) ==>
              var r := Registro(e, t, fecha, hora, descripcion, fingerprint);
              && out.0 == Creacion(true, MensajeRegistrado(t), Some(r))
              && out.1.registros == db.registros + [r])
  {
    var oe, ot := BuscarEmpleado(db.empleados, empleadoId), BuscarTipo(db.tipos, tipoId);
    if oe.None? || ot.None? then
      (Creacion(false, MensajeNoEncontrado, None), db)
    else
      var e, t := oe.value, ot.value;
      if ValidarRegistroDuplicado(db.registros, e, t, fecha) then
        (Creacion(false, MensajeDuplicado(t), None), db)
      else if ValidarFingerprintUnico(db.registros, e, fingerprint, fecha) then
        (Creacion(false, MensajeDispositivo, None), db)
      else
        var r := Registro(e, t, fecha, hora, descripcion, fingerprint);
        (Creacion(true, MensajeRegistrado(t), Some(r)), db.(registros := db.registros + [r]))
  }

  // ---------------------------------------------------------------------------
  // Invariants of the record table

  /** At most one record per employee, date and once-a-day type. */
  ghost predicate UnicoPorDia(rs: seq<Registro>) {
    forall i, j :: 0 <= i < |rs| && 0 <= j < |rs| && i != j
      && rs[i].empleado.idEmpleado == rs[j].empleado.idEmpleado
      && rs[i].fecha == rs[j].fecha && rs[i].tipo.idTipo == rs[j].tipo.idTipo
      ==> !EsUnico(rs[i].tipo)
  }

  /** On any date, each fingerprint (a missing one included) belongs to at most one employee. */
  ghost predicate DispositivoPorDia(rs: seq<Registro>) {
    forall i, j :: 0 <= i < |rs| && 0 <= j < |rs|
      && rs[i].fecha == rs[j].fecha && rs[i].fingerprint == rs[j].fingerprint
      ==> rs[i].empleado.idEmpleado == rs[j].empleado.idEmpleado
  }

  /** Every record points at an employee and a type of the catalogue. */
  ghost predicate Referencias(db: Db) {
    forall i :: 0 <= i < |db.registros| ==>
      db.registros[i].empleado in db.empleados && db.registros[i].tipo in db.tipos
  }

  /** The constraints the tables keep between requests. */
  ghost predicate Invariante(db: Db) {
    && EmpleadosUnicos(db.empleados)
    && TiposDistintos(db.tipos)
    && Referencias(db)
    && UnicoPorDia(db.registros)
    && DispositivoPorDia(db.registros)
  }

  /** Two types of a catalogue with unique keys that share a key are the same type. */
  lemma MismoTipo(ts: seq<TipoAsistencia>, a: TipoAsistencia, b: TipoAsistencia)
    requires TiposDistintos(ts) && a in ts && b in ts && a.idTipo == b.idTipo
    ensures a == b
  {
    var i :| 0 <= i < |ts| && ts[i] == a;
    var j :| 0 <= j < |ts| && ts[j] == b;
  }

  /**
   Appending a record that passed both checks keeps both invariants: it is not
   a second once-a-day punch, and its fingerprint is not another employee's.
   */
  lemma AnexarPreserva(db: Db, r: Registro)
    requires Invariante(db)
    requires r.empleado in db.empleados && r.tipo in db.tipos
    requires !(EsUnico(r.tipo) && HayRegistro(db.registros, r.empleado, r.tipo, r.fecha))
    requires !DispositivoAjeno(db.registros, r.empleado, r.fingerprint, r.fecha)
    ensures Invariante(db.(registros := db.registros + [r]))
  {
    var rs := db.registros;
    var rs' := rs + [r];
    var n := |rs|;
    forall i, j | 0 <= i < |rs'| && 0 <= j < |rs'| && i != j
      && rs'[i].empleado.idEmpleado == rs'[j].empleado.idEmpleado
      && rs'[i].fecha == rs'[j].fecha && rs'[i].tipo.idTipo == rs'[j].tipo.idTipo
      ensures !EsUnico(rs'[i].tipo)
    {
      if i == n {
        assert rs'[j] == rs[j];
      } else if j == n {
        assert rs'[i] == rs[i];
        MismoTipo(db.tipos, rs[i].tipo, r.tipo);
      } else {
        assert rs'[i] == rs[i] && rs'[j] == rs[j];
      }
    }
    forall i, j | 0 <= i < |rs'| && 0 <= j < |rs'|
      && rs'[i].fecha == rs'[j].fecha && rs'[i].fingerprint == rs'[j].fingerprint
      ensures rs'[i].empleado.idEmpleado == rs'[j].empleado.idEmpleado
    {
      if i == n && j < n {
        assert rs'[j] == rs[j];
      } else if j == n && i < n {
        assert rs'[i] == rs[i];
      } else if i < n && j < n {
        assert rs'[i] == rs[i] && rs'[j] == rs[j];
      }
    }
    forall i | 0 <= i < |rs'|
      ensures rs'[i].empleado in db.empleados && rs'[i].tipo in db.tipos
    {
      if i < n {
        assert rs'[i] == rs[i];
      }
    }
  }

  /** `crear_registro_asistencia` keeps the table invariants, whatever it answers. */
  lemma CrearPreservaInvariante(
    db: Db, empleadoId: int, tipoId: int,
    descripcion: Option<string>, fingerprint: Option<string>,
    fecha: FechaValida, hora: Hora)
    requires Invariante(db)
    ensures Invariante(CrearRegistroAsistencia(db, empleadoId, tipoId, descripcion, fingerprint, fecha, hora).1)
  {
    var oe, ot := BuscarEmpleado(db.empleados, empleadoId), BuscarTipo(db.tipos, tipoId);
    if oe.Some? && ot.Some? {
      var r := Registro(oe.value, ot.value, fecha, hora, descripcion, fingerprint);
      if !(EsUnico(r.tipo) && HayRegistro(db.registros, r.empleado, r.tipo, fecha))
        && !DispositivoAjeno(db.registros, r.empleado, fingerprint, fecha) {
        AnexarPreserva(db, r);
      }
    }
  }

  // ---------------------------------------------------------------------------
  // Consequences for a sequence of punches

  /**
   Once an employee has punched a once-a-day type, the same punch later that
   day is refused with the duplicate message and stores nothing.
   */
  lemma SegundaVezRechazada(
    db: Db, empleadoId: int, tipoId: int, fecha: FechaValida,
    d1: Option<string>, fp1: Option<string>, h1: Hora,
    d2: Option<string>, fp2: Option<string>, h2: Hora)
    requires CrearRegistroAsistencia(db, empleadoId, tipoId, d1, fp1, fecha, h1).0.exito
    requires BuscarTipo(db.tipos, tipoId).Some? && EsUnico(BuscarTipo(db.tipos, tipoId).value)
    ensures var db1 := CrearRegistroAsistencia(db, empleadoId, tipoId, d1, fp1, fecha, h1).1;
      CrearRegistroAsistencia(db1, empleadoId, tipoId, d2, fp2, fecha, h2)
        == (Creacion(false, MensajeDuplicado(BuscarTipo(db.tipos, tipoId).value), None), db1)
  {
    var db1 := CrearRegistroAsistencia(db, empleadoId, tipoId, d1, fp1, fecha, h1).1;
    var e, t := BuscarEmpleado(db.empleados, empleadoId).value, BuscarTipo(db.tipos, tipoId).value;
    var r := Registro(e, t, fecha, h1, d1, fp1);
    assert db1.registros == db.registros + [r];
    assert db1.registros[|db.registros|] == r;
    assert HayRegistro(db1.registros, e, t, fecha);
  }

  /**
   Once a device has been used by one employee on a date, any other employee
   punching with it that date is refused and nothing is stored. This holds
   for a missing fingerprint too, which matches another missing one.
   */
  lemma DispositivoDeOtroRechazado(
    db: Db, id1: int, tipo1: int, id2: int, tipo2: int, fecha: FechaValida,
    fp: Option<string>, d1: Option<string>, h1: Hora, d2: Option<string>, h2: Hora)
    requires CrearRegistroAsistencia(db, id1, tipo1, d1, fp, fecha, h1).0.exito
    requires id1 != id2
    ensures var db1 := CrearRegistroAsistencia(db, id1, tipo1, d1, fp, fecha, h1).1;
      var out := CrearRegistroAsistencia(db1, id2, tipo2, d2, fp, fecha, h2);
      !out.0.exito && out.1 == db1
  {
    var db1 := CrearRegistroAsistencia(db, id1, tipo1, d1, fp, fecha, h1).1;
    var e1, t1 := BuscarEmpleado(db.empleados, id1).value, BuscarTipo(db.tipos, tipo1).value;
    var r := Registro(e1, t1, fecha, h1, d1, fp);
    assert db1.registros == db.registros + [r];
    var oe2 := BuscarEmpleado(db1.empleados, id2);
    if oe2.Some? {
      assert db1.registros[|db.registros|] == r;
      assert DispositivoAjeno(db1.registros, oe2.value, fp, fecha);
    }
  }

  /**
   An employee's own earlier punches never block their device: after a
   successful punch, the same employee may punch any repeatable type that
   day with the same device.
   */
  lemma PropioDispositivoAdmitido(
    db: Db, empleadoId: int, tipo1: int, tipo2: int, fecha: FechaValida,
    fp: Option<string>, d1: Option<string>, h1: Hora, d2: Option<string>, h2: Hora)
    requires CrearRegistroAsistencia(db, empleadoId, tipo1, d1, fp, fecha, h1).0.exito
    requires BuscarTipo(db.tipos, tipo2).Some? && !EsUnico(BuscarTipo(db.tipos, tipo2).value)
    ensures var db1 := CrearRegistroAsistencia(db, empleadoId, tipo1, d1, fp, fecha, h1).1;
      CrearRegistroAsistencia(db1, empleadoId, tipo2, d2, fp, fecha, h2).0.exito
  {
    var db1 := CrearRegistroAsistencia(db, empleadoId, tipo1, d1, fp, fecha, h1).1;
    var e := BuscarEmpleado(db.empleados, empleadoId).value;
    var r := Registro(e, BuscarTipo(db.tipos, tipo1).value, fecha, h1, d1, fp);
    assert db1.registros == db.registros + [r];
    assert !DispositivoAjeno(db.registros, e, fp, fecha);
  }
}
