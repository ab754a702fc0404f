/**
 The daily summary of the report service (ReporteService in app/services.py,
 repeated inline in `exportar_resumen_excel` in app/views.py): durations in
 whole seconds, their "HH:MM" spelling, the grouping of punches by employee
 and date, and the lunch / errand / leave / worked durations of one day.
 */
module Reporte {
  import opened Wrappers
  import opened Texto
  import opened Models
  import opened Orden

  // ---------------------------------------------------------------------------
  // Durations

  /**
   `delta(t1, t2)`: the signed number of seconds from `t1` to `t2` on the same
   day; negative when `t2` comes first.
   */
  function Delta(t1: Hora, t2: Hora): (d: int)
    ensures t1 + d == t2
    ensures -86400 < d < 86400
    ensures d < 0 <==> t2 < t1
  {
    t2 - t1
  }

  /**
   `strfdelta`: whole hours, a colon, then the remaining whole minutes, each
   written `'02d'`. Hours are floored (Python's `divmod` with a positive
   divisor, which Dafny's `/` and `%` agree with), so minutes are always in
   0..59 and a negative duration shows as e.g. "-1:59" for -60 seconds.
   */
  function Strfdelta(segundos: int): (r: string)
    ensures |r| >= 5 && r[|r| - 3] == ':'
    ensures r[0] == '-' <==> segundos < 0
    ensures var h := segundos / 3600;
      |r| == 5 || r[..|r| - 3] == (if h < 0 then "-" + Decimal(-h) else Decimal(h))
  {
    Pot10Valores();
    var h, m := FormatoEntero(segundos / 3600, 2), FormatoFijo(segundos % 3600 / 60, 2);
    PartesDuracion(h, m);
    h + ":" + m
  }

  /** Reads "H:MM" (hours possibly signed and of any width) back into seconds. */
  function LeerDuracion(s: string): Option<int> {
    if |s| < 4 || s[|s| - 3] != ':' then None
    else
      match (LeerEntero(s[..|s| - 3]), LeerNatural(s[|s| - 2..]))
      case (Some(h), Some(m)) => Some(h * 3600 + m * 60)
      case _ => None
  }

  lemma PartesDuracion(h: string, m: string)
    requires |h| >= 1 && |m| == 2
    ensures var s := h + ":" + m;
      |s| >= 4 && s[|s| - 3] == ':' && s[..|s| - 3] == h && s[|s| - 2..] == m
  {
  }

  /** A text "<hours>:<minutes>" reads back as its two fields combined. */
  lemma LeerDuracionPartes(h: string, m: string, hv: int, mv: int, s: string)
    requires |h| >= 1 && |m| == 2 && s == h + ":" + m
    requires LeerEntero(h) == Some(hv) && LeerNatural(m) == Some(mv)
    ensures LeerEntero(s[..|s| - 3]) == Some(hv) && LeerNatural(s[|s| - 2..]) == Some(mv)
    ensures LeerDuracion(s) == Some(hv * 3600 + mv * 60)
  {
    PartesDuracion(h, m);
  }

  lemma AritmeticaDuracion(s: int)
    ensures (s / 3600) * 3600 + (s % 3600 / 60) * 60 == s - s % 60
  {
    var q, r := s / 3600, s % 3600;
    assert s == q * 3600 + r;
    var m, x := r / 60, r % 60;
    assert r == m * 60 + x;
    assert s == (q * 60 + m) * 60 + x;
    assert 0 <= x < 60;
  }

  /**
   The "HH:MM" text of a duration: before the colon the floored hours, after
   it the remaining minutes, in 0..59; read back whole, the duration rounded
   down to a whole minute, so formatting loses exactly the seconds.
   */
  lemma StrfdeltaRedondea(segundos: int)
    ensures var r := Strfdelta(segundos);
      && LeerEntero(r[..|r| - 3]) == Some(segundos / 3600)
      && LeerNatural(r[|r| - 2..]) == Some(segundos % 3600 / 60)
      && 0 <= segundos % 3600 / 60 < 60
    ensures LeerDuracion(Strfdelta(segundos)) == Some(segundos - segundos % 60)
  {
    Pot10Valores();
    var hv, mv := segundos / 3600, segundos % 3600 / 60;
    var h, m := FormatoEntero(hv, 2), FormatoFijo(mv, 2);
    LeerFormatoEntero(hv, 2);
    LeerFormatoFijo(mv, 2);
    var s := Strfdelta(segundos);
    assert s == h + ":" + m;
    TextoRedondeado(s, h, m, segundos, hv, mv);
  }

  /** The reading of "<hours>:<minutes>" for fields that read back as `segundos`'s hours and minutes. */
  lemma TextoRedondeado(s: string, h: string, m: string, segundos: int, hv: int, mv: int)
    requires hv == segundos / 3600 && mv == segundos % 3600 / 60
    requires |h| >= 1 && |m| == 2 && s == h + ":" + m
    requires LeerEntero(h) == Some(hv) && LeerNatural(m) == Some(mv)
    ensures LeerEntero(s[..|s| - 3]) == Some(hv) && LeerNatural(s[|s| - 2..]) == Some(mv)
    ensures LeerDuracion(s) == Some(segundos - segundos % 60)
  {
    LeerDuracionPartes(h, m, hv, mv, s);
    Redondeo(s, segundos, hv, mv);
  }

  /** Hours and minutes read back as `segundos` div 3600 and its remaining minutes give `segundos` less its seconds. */
  lemma Redondeo(s: string, segundos: int, hv: int, mv: int)
    requires hv == segundos / 3600 && mv == segundos % 3600 / 60
    requires LeerDuracion(s) == Some(hv * 3600 + mv * 60)
    ensures LeerDuracion(s) == Some(segundos - segundos % 60)
  {
    AritmeticaDuracion(segundos);
  }

  /**
   Below 100 hours a non-negative duration is written in exactly five
   characters "HH:MM", both fields zero-padded.
   */
  lemma StrfdeltaCincoCaracteres(segundos: int)
    requires 0 <= segundos < 360000
    ensures |Strfdelta(segundos)| == 5 && Strfdelta(segundos)[2] == ':'
  {
    Pot10Valores();
    AnchoExacto(segundos / 3600, 2);
  }

  // ---------------------------------------------------------------------------
  // Grouping by employee and date

  /** The dictionary key of the summary: employee key and date. */
  datatype Clave = Clave(idEmpleado: nat, fecha: Fecha)

  function ClaveDe(r: Registro): Clave {
    Clave(r.empleado.idEmpleado, r.fecha)
  }

  /**
   One entry of the summary dictionary: the employee and date last seen under
   the key, and per attendance-type label the list of punch times.
   */
  datatype DatosDia = DatosDia(clave: Clave, empleado: Empleado, fecha: FechaValida, tiempos: map<string, seq<Hora>>)

  /** A label's list, or the empty list a `defaultdict(list)` starts from. */
  function Lista(m: map<string, seq<Hora>>, l: string): seq<Hora> {
    if l in m then m[l] else []
  }

  /** The position of the entry for key `k`, or `|gs|` when there is none yet. */
  function IndiceDe(gs: seq<DatosDia>, k: Clave): (i: nat)
    ensures i <= |gs|
    ensures i < |gs| ==> gs[i].clave == k
    ensures i == |gs| ==> forall j :: 0 <= j < |gs| ==> gs[j].clave != k
    decreases |gs|
  {
    if |gs| == 0 then 0
    else if gs[|gs| - 1].clave == k then |gs| - 1
    else
      var i := IndiceDe(gs[..|gs| - 1], k);
      if i == |gs| - 1 then |gs| else i
  }

  /** One pass of the grouping loop: file the record's time under its key and label. */
  function Anotar(gs: seq<DatosDia>, r: Registro): seq<DatosDia> {
    var i := IndiceDe(gs, ClaveDe(r));
    var l := r.tipo.nombreAsistencia;
    if i < |gs| then
      gs[i := gs[i].(empleado := r.empleado, fecha := r.fecha,
                     tiempos := gs[i].tiempos[l := Lista(gs[i].tiempos, l) + [r.hora]])]
    else
      gs + [DatosDia(ClaveDe(r), r.empleado, r.fecha, map[l := [r.hora]])]
  }

  /** The grouping loop over the records in query order. */
  function Agrupar(rs: seq<Registro>): seq<DatosDia>
    decreases |rs|
  {
    if |rs| == 0 then [] else Anotar(Agrupar(rs[..|rs| - 1]), rs[|rs| - 1])
  }

  /** `order_by('empleado', 'fecha_registro', 'hora_registro')`. */
  function ClaveResumen(r: Registro): seq<int> {
    [r.empleado.idEmpleado, r.fecha.anio, r.fecha.mes, r.fecha.dia, r.hora]
  }

  /** `obtener_datos_resumen`: the records in query order, grouped. */
  function ObtenerDatosResumen(rs: seq<Registro>): seq<DatosDia> {
    Agrupar(Ordenar(rs, ClaveResumen))
  }

  // Reference definition of the grouping

  /** The times, in sequence order, of the records with key `k` and label `l`. */
  function TiemposDe(rs: seq<Registro>, k: Clave, l: string): seq<Hora>
    decreases |rs|
  {
    if |rs| == 0 then []
    else
      var r := rs[|rs| - 1];
      TiemposDe(rs[..|rs| - 1], k, l) + (if ClaveDe(r) == k && r.tipo.nombreAsistencia == l then [r.hora] else [])
  }

  /** Every list present in a day's entry holds at least one time. */
  predicate ListasNoVacias(m: map<string, seq<Hora>>) {
    forall l :: l in m ==> m[l] != []
  }

  /** One entry per key. */
  ghost predicate ClavesDistintas(gs: seq<DatosDia>) {
    forall i, j :: 0 <= i < j < |gs| ==> gs[i].clave != gs[j].clave
  }

  /** An entry for every record. */
  ghost predicate Cubre(gs: seq<DatosDia>, rs: seq<Registro>) {
    forall r :: r in rs ==> exists i :: 0 <= i < |gs| && gs[i].clave == ClaveDe(r)
  }

  /** The entry's key, employee and date are those of record `r`. */
  predicate Origen(r: Registro, g: DatosDia) {
    ClaveDe(r) == g.clave && r.empleado == g.empleado && r.fecha == g.fecha
  }

  /** Each entry's key, employee and date come from one record. */
  ghost predicate Procede(gs: seq<DatosDia>, rs: seq<Registro>) {
    forall i :: 0 <= i < |gs| ==> ConOrigen(gs[i], rs)
  }

  /** Some record of `rs` is the origin of entry `g`. */
  ghost predicate ConOrigen(g: DatosDia, rs: seq<Registro>) {
    exists k :: 0 <= k < |rs| && Origen(rs[k], g)
  }

  /** Under each label, exactly the times of the entry's records with that label. */
  ghost predicate TiemposCorrectos(gs: seq<DatosDia>, rs: seq<Registro>) {
    forall i, l :: 0 <= i < |gs| ==> Lista(gs[i].tiempos, l) == TiemposDe(rs, gs[i].clave, l)
  }

  ghost predicate SinListasVacias(gs: seq<DatosDia>) {
    forall i :: 0 <= i < |gs| ==> ListasNoVacias(gs[i].tiempos)
  }

  /**
   `gs` groups `rs`: one entry per key, an entry for every record, each entry
   taken from a record of its key, and under each label exactly the times of
   that key's records with that label.
   */
  ghost predicate AgrupacionDe(gs: seq<DatosDia>, rs: seq<Registro>) {
    ClavesDistintas(gs) && Cubre(gs, rs) && Procede(gs, rs) && TiemposCorrectos(gs, rs) && SinListasVacias(gs)
  }

  lemma TiemposDeAnexar(rs: seq<Registro>, r: Registro, k: Clave, l: string)
    ensures TiemposDe(rs + [r], k, l)
      == TiemposDe(rs, k, l) + (if ClaveDe(r) == k && r.tipo.nombreAsistencia == l then [r.hora] else [])
  {
    assert (rs + [r])[..|rs|] == rs;
  }

  lemma {:induction false} TiemposDeSinClave(rs: seq<Registro>, k: Clave, l: string)
    requires forall r :: r in rs ==> ClaveDe(r) != k
    ensures TiemposDe(rs, k, l) == []
    decreases |rs|
  {
    if |rs| > 0 {
      assert forall r :: r in rs[..|rs| - 1] ==> r in rs;
      TiemposDeSinClave(rs[..|rs| - 1], k, l);
    }
  }

  /** One pass of the loop keeps `AgrupacionDe`, extended by the record just filed. */
  lemma AnotarPreserva(gs: seq<DatosDia>, rs: seq<Registro>, r: Registro)
    requires AgrupacionDe(gs, rs)
    ensures AgrupacionDe(Anotar(gs, r), rs + [r])
  {
    AnotarClaves(gs, r);
    AnotarCubre(gs, rs, r);
    AnotarProcede(gs, rs, r);
    AnotarTiempos(gs, rs, r);
  }

  lemma AnotarClaves(gs: seq<DatosDia>, r: Registro)
    requires ClavesDistintas(gs) && SinListasVacias(gs)
    ensures ClavesDistintas(Anotar(gs, r)) && SinListasVacias(Anotar(gs, r))
  {
    var gs' := Anotar(gs, r);
    if IndiceDe(gs, ClaveDe(r)) == |gs| {
      forall i, j | 0 <= i < j < |gs'|
        ensures gs'[i].clave != gs'[j].clave
      {
        if j < |gs| {
          assert gs'[i] == gs[i] && gs'[j] == gs[j];
        }
      }
    }
  }

  lemma AnotarCubre(gs: seq<DatosDia>, rs: seq<Registro>, r: Registro)
    requires Cubre(gs, rs)
    ensures Cubre(Anotar(gs, r), rs + [r])
  {
    var gs' := Anotar(gs, r);
    var i := IndiceDe(gs, ClaveDe(r));
    forall x | x in rs + [r]
      ensures exists j :: 0 <= j < |gs'| && gs'[j].clave == ClaveDe(x)
    {
      if x in rs {
        var j :| 0 <= j < |gs| && gs[j].clave == ClaveDe(x);
        assert gs'[j].clave == gs[j].clave;
      } else {
        assert gs'[i].clave == ClaveDe(x);
      }
    }
  }

  lemma AnotarProcede(gs: seq<DatosDia>, rs: seq<Registro>, r: Registro)
    requires Procede(gs, rs)
    ensures Procede(Anotar(gs, r), rs + [r])
  {
    var gs' := Anotar(gs, r);
    var rs' := rs + [r];
    var i := IndiceDe(gs, ClaveDe(r));
    forall j | 0 <= j < |gs'|
      ensures ConOrigen(gs'[j], rs')
    {
      if j == i {
        assert Origen(rs'[|rs|], gs'[j]);
      } else {
        var k :| 0 <= k < |rs| && Origen(rs[k], gs[j]);
        assert Origen(rs'[k], gs'[j]);
      }
    }
  }

  lemma AnotarTiempos(gs: seq<DatosDia>, rs: seq<Registro>, r: Registro)
    requires TiemposCorrectos(gs, rs) && Cubre(gs, rs) && ClavesDistintas(gs)
    ensures TiemposCorrectos(Anotar(gs, r), rs + [r])
  {
    var gs' := Anotar(gs, r);
    var rs' := rs + [r];
    var k := ClaveDe(r);
    var i := IndiceDe(gs, k);
    if i == |gs| {
      forall x | x in rs
        ensures ClaveDe(x) != k
      {
        var j :| 0 <= j < |gs| && gs[j].clave == ClaveDe(x);
      }
    }
    forall j, l | 0 <= j < |gs'|
      ensures Lista(gs'[j].tiempos, l) == TiemposDe(rs', gs'[j].clave, l)
    {
      var lr := r.tipo.nombreAsistencia;
      var extra := if lr == l then [r.hora] else [];
      if j == |gs| {
        assert i == |gs|;
        TiemposDeSinClave(rs, k, l);
        TiemposDeAnexar(rs, r, k, l);
        assert gs'[j] == DatosDia(k, r.empleado, r.fecha, map[lr := [r.hora]]);
        assert Lista(gs'[j].tiempos, l) == extra;
        assert TiemposDe(rs', k, l) == extra;
      } else if j == i {
        TiemposDeAnexar(rs, r, k, l);
        assert gs'[j].clave == k;
        assert Lista(gs[i].tiempos, l) == TiemposDe(rs, k, l);
        assert gs'[j].tiempos == gs[i].tiempos[lr := Lista(gs[i].tiempos, lr) + [r.hora]];
        assert Lista(gs'[j].tiempos, l) == Lista(gs[i].tiempos, l) + extra;
      } else {
        assert gs'[j] == gs[j];
        assert gs[j].clave != k by {
          if i < |gs| {
            assert gs[i].clave == k;
            if j < i { assert gs[j].clave != gs[i].clave; } else { assert gs[i].clave != gs[j].clave; }
          }
        }
        TiemposDeAnexar(rs, r, gs[j].clave, l);
      }
    }
  }

  /** The grouping loop groups the records it ran over. */
  lemma {:induction false} AgruparCorrecto(rs: seq<Registro>)
    ensures AgrupacionDe(Agrupar(rs), rs)
    decreases |rs|
  {
    if |rs| > 0 {
      var ini, r := rs[..|rs| - 1], rs[|rs| - 1];
      assert ini + [r] == rs;
      AgruparCorrecto(ini);
      AnotarPreserva(Agrupar(ini), ini, r);
    }
  }

  lemma {:induction false} TiemposDeConcat(a: seq<Registro>, b: seq<Registro>, k: Clave, l: string)
    ensures TiemposDe(a + b, k, l) == TiemposDe(a, k, l) + TiemposDe(b, k, l)
    decreases |b|
  {
    if |b| > 0 {
      var ini, r := b[..|b| - 1], b[|b| - 1];
      assert a + b == (a + ini) + [r];
      assert b == ini + [r];
      TiemposDeAnexar(a + ini, r, k, l);
      TiemposDeAnexar(ini, r, k, l);
      TiemposDeConcat(a, ini, k, l);
    } else {
      assert a + b == a;
    }
  }

  /** Reordering the records reorders, but does not change, the times filed under a key and label. */
  lemma {:induction false} TiemposDePermutacion(a: seq<Registro>, b: seq<Registro>, k: Clave, l: string)
    requires multiset(a) == multiset(b)
    ensures multiset(TiemposDe(a, k, l)) == multiset(TiemposDe(b, k, l))
    decreases |a|
  {
    if |a| == 0 {
      assert |b| == |multiset(b)| == 0;
    } else {
      var ini, x := a[..|a| - 1], a[|a| - 1];
      assert a == ini + [x];
      assert x in multiset(b);
      var j :| 0 <= j < |b| && b[j] == x;
      var b1, b2 := b[..j], b[j + 1..];
      QuitarUno(a, b, j);
      TiemposDePermutacion(ini, b1 + b2, k, l);
      TiemposDeHueco(b, j, k, l);
      TiemposDeAnexar(ini, x, k, l);
    }
  }

  /** Removing the last record of `a` and the same record at `j` in `b` keeps the multisets equal. */
  lemma QuitarUno(a: seq<Registro>, b: seq<Registro>, j: nat)
    requires multiset(a) == multiset(b) && |a| > 0 && j < |b| && b[j] == a[|a| - 1]
    ensures multiset(a[..|a| - 1]) == multiset(b[..j] + b[j + 1..])
  {
    var ini, x := a[..|a| - 1], a[|a| - 1];
    assert a == ini + [x];
    assert b == b[..j] + [x] + b[j + 1..];
    assert multiset(a) == multiset(ini) + multiset{x};
    assert multiset(b) == multiset(b[..j]) + multiset{x} + multiset(b[j + 1..]);
    assert multiset(b[..j] + b[j + 1..]) == multiset(b[..j]) + multiset(b[j + 1..]);
    assert multiset(ini) == multiset(a) - multiset{x};
    assert multiset(b[..j]) + multiset(b[j + 1..]) == multiset(b) - multiset{x};
  }

  /** The times of `b` are those of `b` without its `j`-th record, plus that record's own. */
  lemma TiemposDeHueco(b: seq<Registro>, j: nat, k: Clave, l: string)
    requires j < |b|
    ensures var x := b[j];
      multiset(TiemposDe(b, k, l)) == multiset(TiemposDe(b[..j] + b[j + 1..], k, l))
        + multiset(if ClaveDe(x) == k && x.tipo.nombreAsistencia == l then [x.hora] else [])
  {
    var b1, x, b2 := b[..j], b[j], b[j + 1..];
    assert b == (b1 + [x]) + b2;
    TiemposDeConcat(b1, b2, k, l);
    TiemposDeConcat(b1 + [x], b2, k, l);
    TiemposDeAnexar(b1, x, k, l);
  }

  predicate Ascendente(s: seq<Hora>) {
    forall i, j :: 0 <= i < j < |s| ==> s[i] <= s[j]
  }

  lemma {:induction false} TiemposDeAcotados(rs: seq<Registro>, k: Clave, l: string, h: int)
    requires forall r :: r in rs && ClaveDe(r) == k ==> r.hora <= h
    ensures forall i :: 0 <= i < |TiemposDe(rs, k, l)| ==> TiemposDe(rs, k, l)[i] <= h
    decreases |rs|
  {
    if |rs| > 0 {
      assert forall r :: r in rs[..|rs| - 1] ==> r in rs;
      TiemposDeAcotados(rs[..|rs| - 1], k, l, h);
    }
  }

  /** Records in query order give each label's times in ascending order. */
  lemma {:induction false} TiemposDeAscendentes(rs: seq<Registro>, k: Clave, l: string)
    requires Ordenado(rs, ClaveResumen)
    ensures Ascendente(TiemposDe(rs, k, l))
    decreases |rs|
  {
    if |rs| > 0 {
      var n := |rs|;
      var ini, r := rs[..n - 1], rs[n - 1];
      assert Ordenado(ini, ClaveResumen);
      TiemposDeAscendentes(ini, k, l);
      if ClaveDe(r) == k && r.tipo.nombreAsistencia == l {
        forall x | x in ini && ClaveDe(x) == k
          ensures x.hora <= r.hora
        {
          var i :| 0 <= i < n - 1 && ini[i] == x;
          assert LexLe(ClaveResumen(rs[i]), ClaveResumen(rs[n - 1]));
          var p := [k.idEmpleado, k.fecha.anio, k.fecha.mes, k.fecha.dia];
          assert ClaveResumen(x) == p + [x.hora];
          assert ClaveResumen(r) == p + [r.hora];
          LexLeUltimo(p, x.hora, r.hora);
        }
        TiemposDeAcotados(ini, k, l, r.hora);
      }
    }
  }

  /**
   `obtener_datos_resumen` puts every record in exactly one entry, the entry
   of its (employee, date); each entry comes from a record of its key; and
   under each label an entry lists exactly the times of that key's records
   with that label, in ascending order. A label is present only with a
   non-empty list.
   */
  lemma ObtenerDatosResumenCorrecto(rs: seq<Registro>)
    ensures var gs := ObtenerDatosResumen(rs);
      && (forall i, j :: 0 <= i < j < |gs| ==> gs[i].clave != gs[j].clave)
      && (forall r :: r in rs ==> exists i :: 0 <= i < |gs| && gs[i].clave == ClaveDe(r))
      && (forall i :: 0 <= i < |gs| ==>
            ConOrigen(gs[i], rs))
      && (forall i, l :: 0 <= i < |gs| ==>
            multiset(Lista(gs[i].tiempos, l)) == multiset(TiemposDe(rs, gs[i].clave, l)))
      && (forall i, l :: 0 <= i < |gs| ==> Ascendente(Lista(gs[i].tiempos, l)))
      && (forall i :: 0 <= i < |gs| ==> ListasNoVacias(gs[i].tiempos))
  {
    var os := Ordenar(rs, ClaveResumen);
    var gs := Agrupar(os);
    assert gs == ObtenerDatosResumen(rs);
    AgruparCorrecto(os);
    ResumenCubre(gs, os, rs);
    ResumenProcede(gs, os, rs);
    ResumenTiempos(gs, os, rs);
  }

  lemma ResumenCubre(gs: seq<DatosDia>, os: seq<Registro>, rs: seq<Registro>)
    requires Cubre(gs, os) && multiset(os) == multiset(rs)
    ensures Cubre(gs, rs)
  {
    forall r | r in rs
      ensures exists i :: 0 <= i < |gs| && gs[i].clave == ClaveDe(r)
    {
      assert r in multiset(os);
      assert r in os;
    }
  }

  lemma ResumenProcede(gs: seq<DatosDia>, os: seq<Registro>, rs: seq<Registro>)
    requires Procede(gs, os) && multiset(os) == multiset(rs)
    ensures Procede(gs, rs)
  {
    forall i | 0 <= i < |gs|
      ensures ConOrigen(gs[i], rs)
    {
      var k :| 0 <= k < |os| && Origen(os[k], gs[i]);
      assert os[k] in multiset(rs);
      var k' :| 0 <= k' < |rs| && rs[k'] == os[k];
    }
  }

  lemma ResumenTiempos(gs: seq<DatosDia>, os: seq<Registro>, rs: seq<Registro>)
    requires TiemposCorrectos(gs, os) && multiset(os) == multiset(rs) && Ordenado(os, ClaveResumen)
    ensures forall i, l :: 0 <= i < |gs| ==>
      multiset(Lista(gs[i].tiempos, l)) == multiset(TiemposDe(rs, gs[i].clave, l))
    ensures forall i, l :: 0 <= i < |gs| ==> Ascendente(Lista(gs[i].tiempos, l))
  {
    forall i, l | 0 <= i < |gs|
      ensures multiset(Lista(gs[i].tiempos, l)) == multiset(TiemposDe(rs, gs[i].clave, l))
      ensures Ascendente(Lista(gs[i].tiempos, l))
    {
      TiemposDePermutacion(os, rs, gs[i].clave, l);
      TiemposDeAscendentes(os, gs[i].clave, l);
    }
  }

  // The first time under a label

  /** Record `r` has key `k` and label `l`. */
  predicate DeClaveYTipo(r: Registro, k: Clave, l: string) {
    ClaveDe(r) == k && r.tipo.nombreAsistencia == l
  }

  /** Some record has key `k` and label `l`. */
  ghost predicate Marcado(rs: seq<Registro>, k: Clave, l: string) {
    exists j :: 0 <= j < |rs| && DeClaveYTipo(rs[j], k, l)
  }

  /** Some record with key `k` and label `l` was punched at `t`. */
  ghost predicate MarcaEn(rs: seq<Registro>, k: Clave, l: string, t: int) {
    exists j :: 0 <= j < |rs| && DeClaveYTipo(rs[j], k, l) && rs[j].hora == t
  }

  /** `t` is the earliest punch among the records with key `k` and label `l`. */
  ghost predicate PrimeraMarca(rs: seq<Registro>, k: Clave, l: string, t: int) {
    && MarcaEn(rs, k, l, t)
    && forall j :: 0 <= j < |rs| && DeClaveYTipo(rs[j], k, l) ==> t <= rs[j].hora
  }

  /** The reference list holds exactly the punch times of the key's records with that label. */
  lemma {:induction false} TiemposDeMiembro(rs: seq<Registro>, k: Clave, l: string, t: int)
    ensures t in TiemposDe(rs, k, l) <==> MarcaEn(rs, k, l, t)
    decreases |rs|
  {
    if |rs| > 0 {
      var ini, r := rs[..|rs| - 1], rs[|rs| - 1];
      TiemposDeMiembro(ini, k, l, t);
      if MarcaEn(ini, k, l, t) {
        var j :| 0 <= j < |ini| && DeClaveYTipo(ini[j], k, l) && ini[j].hora == t;
        assert rs[j] == ini[j];
      }
      if MarcaEn(rs, k, l, t) {
        var j :| 0 <= j < |rs| && DeClaveYTipo(rs[j], k, l) && rs[j].hora == t;
        if j < |rs| - 1 {
          assert ini[j] == rs[j];
        }
      }
    }
  }

  /**
   An ascending list with the same times as the reference list is empty
   exactly when no record has the key and label, and otherwise starts with
   the earliest such punch.
   */
  lemma PrimeraDeLista(xs: seq<Hora>, rs: seq<Registro>, k: Clave, l: string)
    requires multiset(xs) == multiset(TiemposDe(rs, k, l)) && Ascendente(xs)
    ensures xs != [] <==> Marcado(rs, k, l)
    ensures xs != [] ==> PrimeraMarca(rs, k, l, xs[0])
  {
    if xs != [] {
      assert xs[0] in multiset(TiemposDe(rs, k, l));
      TiemposDeMiembro(rs, k, l, xs[0]);
      forall j | 0 <= j < |rs| && DeClaveYTipo(rs[j], k, l)
        ensures xs[0] <= rs[j].hora
      {
        TiemposDeMiembro(rs, k, l, rs[j].hora);
        assert rs[j].hora in multiset(xs);
        var p :| 0 <= p < |xs| && xs[p] == rs[j].hora;
      }
    } else if Marcado(rs, k, l) {
      var j :| 0 <= j < |rs| && DeClaveYTipo(rs[j], k, l);
      TiemposDeMiembro(rs, k, l, rs[j].hora);
      assert false;
    }
  }

  /**
   In each entry of the summary, a label is present exactly when some record
   of the entry's employee and date has that type, and its first time, the
   one `calcular_horas_empleado` takes with `[0]`, is the earliest such punch.
   */
  lemma ResumenPrimerasMarcas(rs: seq<Registro>)
    ensures var gs := ObtenerDatosResumen(rs);
      forall i, l :: 0 <= i < |gs| ==>
        && (l in gs[i].tiempos <==> Marcado(rs, gs[i].clave, l))
        && (l in gs[i].tiempos ==> gs[i].tiempos[l] != [] && PrimeraMarca(rs, gs[i].clave, l, gs[i].tiempos[l][0]))
  {
    var gs := ObtenerDatosResumen(rs);
    ObtenerDatosResumenCorrecto(rs);
    forall i, l | 0 <= i < |gs|
      ensures l in gs[i].tiempos <==> Marcado(rs, gs[i].clave, l)
      ensures l in gs[i].tiempos ==> gs[i].tiempos[l] != [] && PrimeraMarca(rs, gs[i].clave, l, gs[i].tiempos[l][0])
    {
      assert ListasNoVacias(gs[i].tiempos);
      PrimeraDeLista(Lista(gs[i].tiempos, l), rs, gs[i].clave, l);
    }
  }

  // ---------------------------------------------------------------------------
  // Hours of one day

  /** The two labels the lunch duration is looked up under. */
  datatype EtiquetasAlmuerzo = EtiquetasAlmuerzo(inicio: string, fin: string)

  /** The lunch labels as the summary code spells them (lower-case "almuerzo"). */
  const AlmuerzoComoEscrito: EtiquetasAlmuerzo := EtiquetasAlmuerzo("Inicio almuerzo", "Fin almuerzo")

  /** The lunch labels as the type catalogue is seeded and as the validator spells them. */
  const AlmuerzoSembrado: EtiquetasAlmuerzo := EtiquetasAlmuerzo("Inicio Almuerzo", "Fin Almuerzo")

  /** The eight attendance-type labels the catalogue is seeded with. */
  const EtiquetasSembradas: seq<string> := [
    "Entrada", "Salida", "Inicio Almuerzo", "Fin Almuerzo",
    "Entrada por comisión", "Salida por comisión",
    "Entrada por otros", "Salida por otros"
  ]

  /** The four durations of one employee's day, in seconds. */
  datatype Horas = Horas(almuerzo: int, comision: int, permiso: int, trabajadas: int)

  /** The four durations as "HH:MM" text, in report-column order. */
  datatype HorasTexto = HorasTexto(almuerzo: string, comision: string, permiso: string, trabajadas: string)

  /** From the first `desde` time to the first `hasta` time; zero unless both labels are present. */
  function Tramo(m: map<string, seq<Hora>>, desde: string, hasta: string): (d: int)
    requires ListasNoVacias(m)
  {
    if desde in m && hasta in m then Delta(m[desde][0], m[hasta][0]) else 0
  }

  /**
   The durations `calcular_horas_empleado` derives from one day's lists, with
   the lunch labels as a parameter. Each duration is zero unless both of its
   labels are present and otherwise runs from the first time of its start
   label to the first time of its end label; worked time is the span from
   the first Entrada to the first Salida less lunch and leave ("por otros"),
   errands ("por comisión") not deducted, and zero without both ends.
   */
  function CalcularHoras(et: EtiquetasAlmuerzo, m: map<string, seq<Hora>>): (h: Horas)
    requires ListasNoVacias(m)
    ensures !(et.inicio in m && et.fin in m) ==> h.almuerzo == 0
    ensures et.inicio in m && et.fin in m ==> h.almuerzo == m[et.fin][0] as int - m[et.inicio][0]
    ensures !("Salida por comisión" in m && "Entrada por comisión" in m) ==> h.comision == 0
    ensures "Salida por comisión" in m && "Entrada por comisión" in m ==>
      h.comision == m["Entrada por comisión"][0] as int - m["Salida por comisión"][0]
    ensures !("Salida por otros" in m && "Entrada por otros" in m) ==> h.permiso == 0
    ensures "Salida por otros" in m && "Entrada por otros" in m ==>
      h.permiso == m["Entrada por otros"][0] as int - m["Salida por otros"][0]
    ensures !("Entrada" in m && "Salida" in m) ==> h.trabajadas == 0
    ensures "Entrada" in m && "Salida" in m ==>
      h.trabajadas + h.almuerzo + h.permiso == m["Salida"][0] as int - m["Entrada"][0]
  {
    var almuerzo := Tramo(m, et.inicio, et.fin);
    var comision := Tramo(m, "Salida por comisión", "Entrada por comisión");
    var permiso := Tramo(m, "Salida por otros", "Entrada por otros");
    var trabajadas := if "Entrada" in m && "Salida" in m then Delta(m["Entrada"][0], m["Salida"][0]) - almuerzo - permiso else 0;
    Horas(almuerzo, comision, permiso, trabajadas)
  }

  /** The four durations, each written by `strfdelta`. */
  function TextoHoras(h: Horas): (t: HorasTexto)
    ensures |t.almuerzo| >= 5 && |t.comision| >= 5 && |t.permiso| >= 5 && |t.trabajadas| >= 5
  {
    HorasTexto(Strfdelta(h.almuerzo), Strfdelta(h.comision), Strfdelta(h.permiso), Strfdelta(h.trabajadas))
  }

  /** Each of the four texts reads back as its duration rounded down to the minute. */
  lemma LeerTextoHoras(h: Horas)
    ensures var t := TextoHoras(h);
      && LeerDuracion(t.almuerzo) == Some(h.almuerzo - h.almuerzo % 60)
      && LeerDuracion(t.comision) == Some(h.comision - h.comision % 60)
      && LeerDuracion(t.permiso) == Some(h.permiso - h.permiso % 60)
      && LeerDuracion(t.trabajadas) == Some(h.trabajadas - h.trabajadas % 60)
  {
    StrfdeltaRedondea(h.almuerzo);
    StrfdeltaRedondea(h.comision);
    StrfdeltaRedondea(h.permiso);
    StrfdeltaRedondea(h.trabajadas);
  }

  /** `calcular_horas_empleado`: the day's four durations as "HH:MM" text. */
  function CalcularHorasEmpleado(et: EtiquetasAlmuerzo, m: map<string, seq<Hora>>): HorasTexto
    requires ListasNoVacias(m)
  {
    TextoHoras(CalcularHoras(et, m))
  }

  /** `strfdelta` of a whole number of hours below 100: two digits, then ":00". */
  lemma StrfdeltaHorasEnteras(horas: int)
    requires 0 <= horas < 100
    ensures Strfdelta(horas * 3600) == [Digito(horas / 10), Digito(horas % 10), ':', '0', '0']
  {
    Pot10Valores();
    var s := horas * 3600;
    assert s / 3600 == horas;
    assert s % 3600 == 0;
    DosCifras(horas);
    DosCifras(0);
    assert FormatoFijo(0, 2) == FormatoEntero(0, 2);
    assert Digito(0) == '0';
    var a, b := Digito(horas / 10), Digito(horas % 10);
    assert Strfdelta(s) == [a, b] + ":" + ['0', '0'];
    JuntarHHMM(a, b, '0', '0');
  }

  lemma JuntarHHMM(a: char, b: char, c: char, d: char)
    ensures [a, b] + ":" + [c, d] == [a, b, ':', c, d]
  {
  }

  /** Only the first time under each label counts: later punches of a label change nothing. */
  lemma SoloCuentaLaPrimera(et: EtiquetasAlmuerzo, m: map<string, seq<Hora>>, l: string, mas: seq<Hora>)
    requires ListasNoVacias(m) && l in m
    ensures ListasNoVacias(m[l := m[l] + mas])
    ensures CalcularHoras(et, m[l := m[l] + mas]) == CalcularHoras(et, m)
  {
    var m' := m[l := m[l] + mas];
    assert forall x :: x in m' ==> x in m && m'[x][0] == m[x][0];
  }

  /** Errand punches ("por comisión") never change the worked time. */
  lemma ComisionNoDescuenta(et: EtiquetasAlmuerzo, m: map<string, seq<Hora>>, salida: seq<Hora>, entrada: seq<Hora>)
    requires ListasNoVacias(m) && salida != [] && entrada != []
    requires et.inicio !in {"Salida por comisión", "Entrada por comisión"}
    requires et.fin !in {"Salida por comisión", "Entrada por comisión"}
    ensures var m' := m["Salida por comisión" := salida]["Entrada por comisión" := entrada];
      ListasNoVacias(m') && CalcularHoras(et, m').trabajadas == CalcularHoras(et, m).trabajadas
  {
  }

  /**
   With the labels the catalogue is seeded with, the summary's lunch lookup
   never matches: its lunch is zero and lunch is never deducted from the
   worked time.
   */
  lemma AlmuerzoIgnorado(m: map<string, seq<Hora>>)
    requires ListasNoVacias(m)
    requires forall l :: l in m ==> l in EtiquetasSembradas
    ensures CalcularHoras(AlmuerzoComoEscrito, m).almuerzo == 0
    ensures "Entrada" in m && "Salida" in m ==>
      CalcularHoras(AlmuerzoComoEscrito, m).trabajadas + CalcularHoras(AlmuerzoComoEscrito, m).permiso
        == m["Salida"][0] as int - m["Entrada"][0]
  {
    assert "Inicio almuerzo" !in EtiquetasSembradas;
  }

  /** Entrada 08:00, Inicio Almuerzo 12:00, Fin Almuerzo 13:00, Salida 17:00, as the seed labels them. */
  const JornadaEjemplo: map<string, seq<Hora>> := map[
    "Entrada" := [8 * 3600], "Inicio Almuerzo" := [12 * 3600],
    "Fin Almuerzo" := [13 * 3600], "Salida" := [17 * 3600]]

  /**
   As written, the example day reports nine worked hours and no lunch. (The
   day is passed as `m` rather than written as the constant in the contract,
   so that the verifier does not unfold the formatting of literal values.)
   */
  lemma JornadaEjemploComoEscrita(m: map<string, seq<Hora>>)
    requires m == JornadaEjemplo
    ensures ListasNoVacias(m)
    ensures CalcularHoras(AlmuerzoComoEscrito, m) == Horas(0, 0, 0, 9 * 3600)
    ensures CalcularHorasEmpleado(AlmuerzoComoEscrito, m).trabajadas == "09:00"
  {
    var h := CalcularHoras(AlmuerzoComoEscrito, m);
    assert h == Horas(0, 0, 0, 9 * 3600);
    var n := h.trabajadas / 3600;
    assert h.trabajadas == n * 3600 && n == 9;
    StrfdeltaHorasEnteras(n);
    assert Digito(0) == '0' && Digito(9) == '9';
  }

  /**
   With the seeded lunch labels, the example day reports eight worked hours
   and one of lunch. (`m` is pinned to the constant by `requires` for the
   same reason as in `JornadaEjemploComoEscrita`.)
   */
  lemma JornadaEjemploCorregida(m: map<string, seq<Hora>>)
    requires m == JornadaEjemplo
    ensures ListasNoVacias(m)
    ensures CalcularHoras(AlmuerzoSembrado, m) == Horas(3600, 0, 0, 8 * 3600)
    ensures CalcularHorasEmpleado(AlmuerzoSembrado, m).trabajadas == "08:00"
    ensures CalcularHorasEmpleado(AlmuerzoSembrado, m).almuerzo == "01:00"
  {
    var h := CalcularHoras(AlmuerzoSembrado, m);
    assert h == Horas(3600, 0, 0, 8 * 3600);
    var n, a := h.trabajadas / 3600, h.almuerzo / 3600;
    assert h.trabajadas == n * 3600 && n == 8;
    assert h.almuerzo == a * 3600 && a == 1;
    StrfdeltaHorasEnteras(n);
    StrfdeltaHorasEnteras(a);
    assert Digito(0) == '0' && Digito(8) == '8' && Digito(1) == '1';
  }

  /**
   With the seeded lunch labels, a day with both lunch punches has the lunch
   span deducted from the worked time.
   */
  lemma AlmuerzoSembradoDescuenta(m: map<string, seq<Hora>>)
    requires ListasNoVacias(m)
    requires "Entrada" in m && "Salida" in m && "Inicio Almuerzo" in m && "Fin Almuerzo" in m
    ensures var h := CalcularHoras(AlmuerzoSembrado, m);
      && h.almuerzo == m["Fin Almuerzo"][0] as int - m["Inicio Almuerzo"][0]
      && h.trabajadas == (m["Salida"][0] as int - m["Entrada"][0]) - (m["Fin Almuerzo"][0] as int - m["Inicio Almuerzo"][0]) - h.permiso
  {
  }

  /**
   `strfdelta` of -60 seconds is "-1:59": hours are floored, minutes stay in
   0..59. (The duration is a parameter pinned by `requires`, not a literal,
   so that the verifier does not unfold the formatting of a literal value.)
   */
  lemma StrfdeltaNegativo(segundos: int)
    requires segundos == -60
    ensures Strfdelta(segundos) == "-1:59"
  {
    Pot10Valores();
    var h, m := segundos / 3600, segundos % 3600 / 60;
    assert h == -1 && m == 59;
    assert Strfdelta(segundos) == FormatoEntero(h, 2) + ":" + FormatoFijo(m, 2);
    MenosUno(h);
    CincuentaYNueve(m);
    JuntarHHMM('-', '1', '5', '9');
  }

  lemma MenosUno(h: int)
    requires h == -1
    ensures FormatoEntero(h, 2) == ['-', '1']
  {
    var d := Decimal(-h);
    assert d == "1";
    assert RellenarCeros(d, 1) == d;
  }

  lemma CincuentaYNueve(m: int)
    requires m == 59
    ensures Pot10(2) == 100 && FormatoFijo(m, 2) == ['5', '9']
  {
    Pot10Valores();
    assert m / 10 == 5 && m % 10 == 9;
    DosCifras(m);
    assert Digito(5) == '5' && Digito(9) == '9';
  }
}
