# Attendance registration and daily summary, modelled in Dafny

This project models the business rules of a Django attendance system. Employees
punch in and out from a web form: "Entrada", "Inicio Almuerzo", "Fin Almuerzo",
"Salida", and the errand and leave pairs "Salida/Entrada por comisión" and
"Salida/Entrada por otros". Staff then download two Excel sheets: every punch,
newest first, and a daily summary of lunch, errand, leave and worked time per
employee and day.

The modules follow the program's structure:

- `Texto`: Python's `format(n, '0<w>d')` and `int(s)` on decimal strings.
- `Models` (app/models.py):
  - the `Empleado`, `TipoAsistencia` and `RegistroAsistencia` records;
  - their unique keys;
  - their `__str__` strings;
  - dates as `str`/`strftime` print them, and times of day.
- `Orden`: the `order_by` of the queries. It is a lexicographic order on integer keys and an insertion sort.
- `Asistencia` (`AsistenciaService` in app/services.py):
  - the two validators;
  - the registration function;
  - the table invariants that registration keeps.
- `Reporte` (`ReporteService` in app/services.py):
  - `delta` and `strfdelta`;
  - the grouping of punches by (employee, date);
  - the four durations of a day.
- `Vistas` (app/views.py):
  - the form handler `registrar_asistencia`;
  - the rows of `exportar_resumen_excel` and `exportar_asistencia_excel`.

How the model represents the system:

- Tables are sequences. A table state is `Db(empleados, tipos, registros)`.
- Registration is a pure function from a `Db` to a result and a new `Db`.
- Times of day are whole seconds since midnight (`Hora`, 0..86399).
- Dates are checked calendar dates (`FechaValida`).
- The current local date and time are parameters.
- A nullable column is an `Option`. Comparing fingerprints as `Option`s gives Django's `filter(fingerprint=None)` its IS NULL meaning: a missing fingerprint matches another missing one.
- Durations are signed whole seconds. `Strfdelta` follows Python's floor `divmod`, which Dafny's `/` and `%` match for a positive divisor. So -60 seconds prints as "-1:59".

The hours calculation takes the two lunch labels as a parameter (`EtiquetasAlmuerzo`). The code looks up "Inicio almuerzo" / "Fin almuerzo". The catalogue and the validator use "Inicio Almuerzo" / "Fin Almuerzo". See "## Findings".

Worked time is meant to exclude lunch: app/services.py:175 and app/views.py:90 subtract it from the span between Entrada and Salida. With the seeded labels, an 08:00–17:00 day with a 12:00–13:00 lunch should therefore report 08:00 worked. The code as written reports 09:00 for that day. The model follows the code (`Reporte.JornadaEjemploComoEscrita`) and proves the intended figure separately (`Reporte.JornadaEjemploCorregida`).

## Model

| member | source | states |
|---|---|---|
| Texto.FormatoEntero | app/services.py:124 | `format(n, '02d')`: exactly max(width, len(str(n))) characters, the sign counted in the width. The text is either exactly the width or the unpadded `str(n)`, with a leading minus exactly for negative numbers |
| Texto.LeerFormatoEntero | app/services.py:124 | what `format(n, '0<w>d')` writes, `int()` reads back as `n`, for every integer and width |
| Texto.AnchoExacto | app/services.py:124 | a non-negative number below 10^w is written in exactly w characters |
| Models.DiasDelMes | app/models.py:24 | a month has 28 to 31 days (Gregorian leap years), which bounds the dates a DateField holds |
| Models.FormatoFecha | app/views.py:94 | a date prints as ten characters "YYYY-MM-DD" with dashes at positions 4 and 7 |
| Models.LeerFormatoFecha | app/views.py:156 | the printed date reads back as the stored date |
| Models.FormatoHora | app/views.py:157 | `strftime('%H:%M:%S')` prints eight characters with colons at positions 2 and 5 |
| Models.LeerFormatoHora | app/views.py:157 | the HH, MM and SS fields read back as the hours, the remaining minutes and the remaining seconds of the stored time, and the whole text as the stored seconds since midnight |
| Models.EmpleadoStr | app/models.py:10-11 | the display name is the given names, one space, then the surnames, and nothing else |
| Models.RegistroStr | app/models.py:29-30 | a record's display string is, slice by slice, its employee's display name, " - ", its type's label, " - ", its date, a space and its time |
| Models.RegistroStrLee | app/models.py:29-30 | the date and the time at the end of a record's display string read back as the record's date and time |
| Models.BuscarEmpleado | app/services.py:74 | the lookup returns a catalogue employee with the id; it fails exactly when no employee has that id |
| Models.BuscarTipo | app/services.py:75 | the lookup returns a catalogue type with the id; it fails exactly when no type has that id |
| Models.BuscarEmpleadoUnico | app/models.py:4 | with unique keys, looking up an employee's key finds that very employee |
| Orden.Insertar | app/services.py:139-140 | inserting into a sorted sequence keeps it sorted and adds exactly that element |
| Orden.Ordenar | app/services.py:139-140 | `order_by` returns a permutation of the records in ascending key order |
| Orden.LexLeNegado | app/views.py:150-151 | sorting by negated keys ("-field") is sorting by the keys, descending |
| Asistencia.ExisteRegistro | app/services.py:33-37 | the filter finds a match exactly when a record has the employee, type and date |
| Asistencia.ExisteDispositivoAjeno | app/services.py:53-57 | the filter finds a match exactly when a record of that date has the fingerprint under another employee |
| Asistencia.ValidarRegistroDuplicado | app/services.py:32-38 | false for any type outside the four once-a-day labels; for those, true exactly when the employee already has that type that day |
| Asistencia.ValidarFingerprintUnico | app/services.py:53-57 | true exactly when a record of that date has an equal fingerprint and a different employee |
| Asistencia.CrearRegistroAsistencia | app/services.py:60-102 | unknown ids give the not-found error; the duplicate check comes before the fingerprint check; any failure stores nothing; success appends exactly the new record |
| Asistencia.MismoTipo | app/models.py:14-15 | in a catalogue with unique keys, two types with the same key are the same type |
| Asistencia.AnexarPreserva | app/services.py:82-97 | appending a record that passed both checks keeps one once-a-day punch per employee and day, and one employee per fingerprint and day |
| Asistencia.CrearPreservaInvariante | app/services.py:60-102 | registration keeps the table invariants, whatever it answers |
| Asistencia.SegundaVezRechazada | app/services.py:82-83 | after a successful once-a-day punch, the same punch that day is refused with the duplicate message and stores nothing |
| Asistencia.DispositivoDeOtroRechazado | app/services.py:86-87 | after one employee punches with a device, any other employee punching with it that day is refused and nothing is stored, even when the fingerprint is missing |
| Asistencia.PropioDispositivoAdmitido | app/services.py:53-57 | an employee's own earlier punch never blocks their device for a repeatable type the same day |
| Reporte.Delta | app/services.py:127-129 | the signed seconds from t1 to t2: t1 plus it is t2, and it is negative exactly when t2 is earlier |
| Reporte.Strfdelta | app/services.py:121-124 | the text has at least five characters (both fields are at least two wide), with the colon third from the end; it starts with a minus exactly for a negative duration, so under an hour is "00:MM", never "-0:MM"; unless it is exactly five characters, the part before the colon is the unpadded `str()` of the floored hours, so the hours field is "-5" for -18000 seconds and "100" for 360000 seconds |
| Reporte.StrfdeltaRedondea | app/services.py:121-124 | the hours field reads back as s div 3600 and the minutes field as (s mod 3600) div 60, in 0..59; the whole text reads back as s less its seconds |
| Reporte.StrfdeltaCincoCaracteres | app/services.py:124 | a duration in 0..99:59 is exactly five characters "HH:MM" |
| Reporte.StrfdeltaNegativo | app/services.py:122-124 | -60 seconds prints as "-1:59" (floored hours, minutes in 0..59) |
| Reporte.StrfdeltaHorasEnteras | app/services.py:124 | a whole number of hours below 100 prints as its two digits then ":00" |
| Reporte.IndiceDe | app/services.py:144-147 | the dictionary lookup finds the entry with the key, or reports that no entry has it |
| Reporte.AnotarPreserva | app/services.py:143-147 | one pass of the loop keeps the grouping of the records seen so far, now including the new record |
| Reporte.AgruparCorrecto | app/services.py:142-147 | the loop's result groups its input: distinct keys, an entry for every record, each entry from a record, and exactly the key's times per label |
| Reporte.TiemposDePermutacion | app/services.py:139-140 | reordering the records does not change which times a key and label collect |
| Reporte.TiemposDeAscendentes | app/services.py:139-147 | in query order, each label's times come out ascending |
| Reporte.TiemposDeMiembro | app/services.py:143-147 | a time is in a key and label's reference list exactly when a record of that key and label was punched at it |
| Reporte.ResumenPrimerasMarcas | app/services.py:139-174 | in each summary entry a label is present exactly when a record of its employee and date has that type, and the first time, the one the hours calculation takes with `[0]`, is the earliest such punch |
| Reporte.ObtenerDatosResumenCorrecto | app/services.py:139-149 | every record falls in exactly one (employee, date) entry; each entry comes from a record of its key; each label lists exactly that key's times for the label, ascending and non-empty |
| Reporte.CalcularHoras | app/services.py:162-175 | each duration is zero unless both of its labels are present, and is otherwise first end time minus first start time; worked time plus lunch plus leave is Salida minus Entrada, and is zero without both |
| Reporte.TextoHoras | app/services.py:177-182 | each of the four texts has at least the five characters of "HH:MM" |
| Reporte.LeerTextoHoras | app/services.py:177-182 | each of the four returned texts reads back as its duration rounded down to the minute |
| Reporte.SoloCuentaLaPrimera | app/services.py:167-174 | later punches under a label change none of the four durations |
| Reporte.ComisionNoDescuenta | app/services.py:169-175 | errand punches never change the worked time |
| Reporte.AlmuerzoIgnorado | app/services.py:167-168 | with only the seeded labels, lunch is always zero and is never deducted from the worked time |
| Reporte.JornadaEjemploComoEscrita | app/services.py:162-182 | the example day (08:00 in, 12:00–13:00 lunch, 17:00 out) reports no lunch and "09:00" worked |
| Reporte.JornadaEjemploCorregida | app/services.py:167-175 | with the seeded lunch labels, the same day reports "01:00" lunch and "08:00" worked |
| Reporte.AlmuerzoSembradoDescuenta | app/services.py:167-175 | with the seeded lunch labels, lunch is deducted from the span Salida minus Entrada |
| Vistas.RegistrarAsistencia | app/views.py:203-268 | a GET shows the form and changes nothing; only the success page changes the tables, by appending one record: the posted employee (the one shown) and type, the given date and time, the posted description or '' when none was posted, and the posted fingerprint |
| Vistas.VistaComoServicio | app/views.py:210-263 | a POST decides as the service does with description `or ''`: same tables, success exactly when the service succeeds, the uncaught not-found error exactly when a lookup fails, and otherwise the service's message on the form, as a warning for a repeated once-a-day punch (`messages.warning`) and as an error for a device another employee used (`messages.error`) |
| Vistas.RegistrarPreservaInvariante | app/views.py:220-256 | the form handler keeps the table invariants, whatever it answers |
| Vistas.FilaDeHorasLee | app/views.py:58-99 | cell by cell under its header, a summary row shows the employee's display name, a date that reads back as the entry's date, and lunch, errand, leave and worked texts that read back as those durations rounded down to the minute |
| Vistas.ExportarResumenCorrecto | app/views.py:68-99 | every record's (employee, date) has exactly one row, whose date column is the record's date; each row shows its entry's employee and date, and its four duration columns are the hours calculation over lists whose labels are exactly the types punched that day and whose first times are the earliest punches |
| Vistas.MomentoOrden | app/views.py:150-151 | the lexicographic order on (date, time) keys is the order in time |
| Vistas.RegistrosExportados | app/views.py:150-151 | the exported records are a permutation of the table, newest first by date then time |
| Vistas.FilaAsistenciaLee | app/views.py:146-160 | cell by cell under its header, a row shows the record's employee and type label, its date, its time field by field, and its description and fingerprint as stored, a missing one as an empty cell |
| Vistas.ExportarAsistencia | app/views.py:146-161 | the header, then one row per record, in export order |
| Vistas.AsistenciaCompleta | app/views.py:152-161 | every record's row appears in the sheet |
| Vistas.ExportarAsistenciaCorrecto | app/views.py:150-161 | every record has its row in the sheet, and every exported record is one of the table's records |

## Left out

- Spreadsheet styling: fonts, fills, borders, column widths and the table object of both exports (app/views.py:101-129, app/views.py:163-191). These are calls into the spreadsheet library. A sheet is modelled as its header and its rows of cell texts.
- HTTP plumbing: `HttpResponse`, `render`, template names, the `messages` store, the auth decorators, `es_staff`, the download page and URL routing. A response is modelled as a datatype.
- `timezone.localtime()`: the current date and time are parameters.
- The clock inside `delta`. It calls `datetime.today()` once for each operand (app/services.py:129, app/views.py:45). If the two calls straddle midnight, the result is off by a whole day (t2 − t1 − 86400 s). The model takes both times on the same day.
- The generic `except Exception` branch of the service ("Error inesperado"). It catches failures from outside the modelled logic.
- Check-then-act races between concurrent submissions. Each call is atomic in the model.
- Sub-second precision of times. Times are whole seconds, so `int(td.total_seconds())` never has a fraction to truncate. The `__str__` of a time with microseconds is not modelled.
- Auto-assigned record ids, and the ORM's physical row order.
- The tie order of `order_by` for equal keys. It is unspecified in the database; the model fixes one order.
- Parsing of the form fields. The ids arrive already parsed, so the `ValueError` of `int()` on a malformed type id is not modelled. Neither is the employee id arriving as a string.
- The "empleado" and "fecha" entries of each summary dictionary, which share the dictionary with the type labels. They are kept as separate fields. A type labelled "empleado" or "fecha" would clash with them in the code; that case is not modelled.
- Years below 1000. `str(date)` pads the year to four digits, but `strftime('%Y')` is platform-dependent there; the model always pads to four.
- Column `max_length` (app/models.py:5-8, 15, 26-27). The registration path does not check lengths, so the model has no length rule; what the database does with an over-long value is outside the model.
- Creating employees and attendance types. No modelled operation creates them; the seed script does. Their unique keys, `dni` and labels are part of `Asistencia.Invariante`, which registration preserves.
- Reporte.CalcularHorasEmpleado: has no contract of its own. It is `TextoHoras` of `CalcularHoras`, and their contracts and `Reporte.LeerTextoHoras` state its behaviour.
- Reporte.Strfdelta: its own contract gives the shape of the text and the spelling of the hours field. The values the two fields read back as are in `Reporte.StrfdeltaRedondea`.
- Reporte.ObtenerDatosResumen: has no contract of its own. `Reporte.ObtenerDatosResumenCorrecto` and `Reporte.ResumenPrimerasMarcas` state its behaviour.
- Reporte.Agrupar: has no contract of its own. It is the loop of app/services.py:142-147, and `Reporte.AgruparCorrecto` states its behaviour against `Reporte.TiemposDe`.
- Reporte.Anotar: has no contract of its own. It is one pass of that loop, and `Reporte.AnotarPreserva` states its behaviour.
- Vistas.ExportarResumen: its own contract only describes the sheet's layout. `Vistas.ExportarResumenCorrecto` and `Vistas.FilaDeHorasLee` state what each row shows.
- Vistas.FilaResumen: has no contract of its own. It is `FilaDeHoras` of `CalcularHoras`, and `Vistas.FilaDeHorasLee` states what each of its cells shows.
- Vistas.FilaAsistencia: has no contract of its own. `Vistas.FilaAsistenciaLee` states what each of its cells shows, and `Vistas.ExportarAsistencia` places it in the sheet.
- Asistencia.CrearRegistroAsistencia: stores the description exactly as given, as the service does. The view instead stores an empty string for a missing description; `Vistas.VistaComoServicio` relates the two.
- Seed, QR, password and theme scripts (cargar_empleados.py, generar_qr.py, actualizar_password.py, theme.js). They are I/O and UI. Only the seeded label list is used (`Reporte.EtiquetasSembradas`).

## Findings

| source | as written | input that shows it | evidently intended | confidence | as-written member | corrected member |
|---|---|---|---|---|---|---|
| app/services.py:167-168, app/views.py:82-83 | lunch is looked up under "Inicio almuerzo" / "Fin almuerzo", but the types are seeded (cargar_empleados.py:45) and validated (app/services.py:17) as "Inicio Almuerzo" / "Fin Almuerzo", so lunch is always "00:00" and never deducted | a day with Entrada 08:00, Inicio Almuerzo 12:00, Fin Almuerzo 13:00, Salida 17:00 reports lunch "00:00" and worked "09:00" | lunch "01:00" and worked "08:00": the lunch labels should match the catalogue's | high, not executed | Reporte.JornadaEjemploComoEscrita | Reporte.JornadaEjemploCorregida |

The lemmas behind this finding:

- `Reporte.AlmuerzoIgnorado` proves, for any day made of seeded labels, that the code as written never deducts lunch.
- `Reporte.AlmuerzoSembradoDescuenta` proves that with the corrected labels (`Reporte.AlmuerzoSembrado`) lunch is always deducted.
- The summary export `Vistas.ExportarResumen` takes the lunch labels as a parameter. With `Reporte.AlmuerzoSembrado` it produces the intended sheet; with `Reporte.AlmuerzoComoEscrito` it produces the sheet the code writes.
