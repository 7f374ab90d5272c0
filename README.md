# Appointment engine of a medical-booking backend, in Dafny

The system is a Spring backend for booking medical appointments. Patients
register, sign in with their email and book 30-minute appointments with doctors.
Each doctor belongs to a specialty and has weekly working blocks. Administrators
create, update and delete doctors and patients. This project models the four
services that hold the domain logic:

- `PacienteService`: the free slots of a doctor on a date, booking an
  appointment, deactivating a patient (which cancels their upcoming
  appointments), and updating a patient's profile.
- `HorarioService`: creating one weekly block or a batch of them, listing a
  doctor's blocks, and deleting a block with an ownership guard.
- `MedicoService`: creating a doctor together with their account and a
  Monday–Friday 08:00–17:00 base schedule, and looking up, updating and
  deleting a doctor.
- `UsuarioService`: patient self-registration, the lookup behind sign-in,
  and the account holder's profile and password changes.

Layout:

- `tiempo.dfy`: times of day as minutes, dates as day numbers, date-times as
  absolute minutes, and the weekday of a date.
- `secuencias.dfy`: `Find` (the first matching row) and `Filter` (every
  matching row, in order), which model the repositories' derived queries.
- `entidades.dfy`: the rows of the tables and one error constructor per
  exception the services throw.
- `repositorios.dfy`: the database as a `Store` object with one sequence field per
  table and a key counter, the queries the services call on it, and
  `Consistente`, the invariant the database keeps (keys below the counter,
  doctors pointing at existing accounts and specialties, unique emails).
- One file per service. Each service operation is a function from the tables
  to a `Result`, plus a method on `Store` that performs it in place and is
  proved equal to that function. Lemmas state what the function promises:
  - every error case, in both directions;
  - the fields of the result;
  - what a later operation observes;
  - that `Consistente` is preserved.

## Model

| member | source | states |
|---|---|---|
| Secuencias.Find | src/main/java/com/concitamedica/domain/usuario/UsuarioRepository.java:15 | a `findBy` query returns the first matching row, and returns nothing exactly when no row matches |
| Secuencias.Filter | src/main/java/com/concitamedica/domain/horario/HorarioRepository.java:17 | a `findAllBy` query returns only matching rows of the table and every matching row |
| Repositorios.HorariosDeMedico | src/main/java/com/concitamedica/domain/horario/HorarioRepository.java:17 | the doctor's blocks: each returned block is in the table and belongs to the doctor, and every such block is returned |
| Repositorios.HorariosDelDia | src/main/java/com/concitamedica/domain/horario/HorarioRepository.java:19 | the blocks of one doctor on one weekday, all of them and only them |
| Repositorios.CitasDelMedicoEnFecha | src/main/java/com/concitamedica/domain/paciente/PacienteService.java:61-62 | the appointments of one doctor that start on the date, all of them and only them (the query's bounds are inclusive) |
| Repositorios.CitasDelPacienteEnFecha | src/main/java/com/concitamedica/domain/paciente/PacienteService.java:109-114 | the same query for one patient |
| Tiempo.En | src/main/java/com/concitamedica/domain/paciente/PacienteService.java:61-62 | a date at a time of day falls on that date, at that time |
| Repositorios.EntreInicioYFinDelDia | src/main/java/com/concitamedica/domain/paciente/PacienteService.java:61-63 | the inclusive window from the start of a date to its last minute holds exactly the date-times of that date, which is why the day queries select by date |
| Tiempo.DiaSemanaDe | src/main/java/com/concitamedica/domain/paciente/PacienteService.java:53 | the weekday of a date, the ISO weekday with 1970-01-01 a Thursday; `MedicoService.BloqueMedicoNuevo` and `MedicoService.DisponibilidadMedicoNuevo` state what it selects |
| Tiempo.MasMinutos | src/main/java/com/concitamedica/domain/paciente/PacienteService.java:76 | adding minutes to a time of day wraps around midnight |
| PacienteService.HorasAgendadasSii | src/main/java/com/concitamedica/domain/paciente/PacienteService.java:64-67 | a time is booked exactly when an appointment in state AGENDADA starts at it; appointments in other states block nothing |
| PacienteService.HorasAgendadas | src/main/java/com/concitamedica/domain/paciente/PacienteService.java:64-67 | the start times of the AGENDADA appointments in a list; `PacienteService.HorasAgendadasSii` states its contents |
| PacienteService.SlotsLibresMiembro | src/main/java/com/concitamedica/domain/paciente/PacienteService.java:69-77 | a time is offered exactly when it is on the 30-minute grid from the block start, before the block end, and not booked |
| PacienteService.SlotsLibresCrecientes | src/main/java/com/concitamedica/domain/paciente/PacienteService.java:69-77 | the offered times are strictly ascending |
| PacienteService.SlotsSinCitas | src/main/java/com/concitamedica/domain/paciente/PacienteService.java:69-77 | with nothing booked, the k-th slot is the start plus 30·k, and there are as many slots as 30-minute steps fit before the end |
| PacienteService.SlotsLibres | src/main/java/com/concitamedica/domain/paciente/PacienteService.java:69-77 | the slot walk as intended, on an unbounded grid position; `PacienteService.SlotsLibresMiembro`, `PacienteService.SlotsLibresCrecientes` and `PacienteService.SlotsSinCitas` state its contents and order |
| PacienteService.BloqueDelDiaUnico | src/main/java/com/concitamedica/domain/paciente/PacienteService.java:53-58 | the block found for the date is the doctor's block on that weekday, and it is the only one |
| PacienteService.HorarioUnicoDelDia | src/main/java/com/concitamedica/domain/horario/HorarioRepository.java:19 | when the weekday query matches one row, every block of that doctor on that weekday is that row |
| PacienteService.BloqueDelDia | src/main/java/com/concitamedica/domain/paciente/PacienteService.java:42-58 | the doctor lookup, the disabled-doctor shortcut and the weekday block lookup; `PacienteService.DisponibilidadCasos` and `PacienteService.BloqueDelDiaUnico` state its outcomes |
| PacienteService.OcupadasSii | src/main/java/com/concitamedica/domain/paciente/PacienteService.java:61-67 | the booked times computed from the date's appointments are exactly the starts of the doctor's AGENDADA appointments on that date |
| PacienteService.Disponibilidad | src/main/java/com/concitamedica/domain/paciente/PacienteService.java:41-80 | calcularDisponibilidad on the tables; `PacienteService.DisponibilidadCasos` and `PacienteService.DisponibilidadSii` state its errors, empty results and offered times |
| PacienteService.DisponibilidadCasos | src/main/java/com/concitamedica/domain/paciente/PacienteService.java:41-58 | not-found exactly for an unknown doctor; no other error except an ambiguous weekday query; an empty list for a disabled doctor and for a weekday without a block; any offered slot comes from the day's single block |
| PacienteService.DisponibilidadSii | src/main/java/com/concitamedica/domain/paciente/PacienteService.java:41-80 | given the day's block, a time is offered exactly when it lies on the block's 30-minute grid and no AGENDADA appointment of the doctor starts then |
| PacienteService.SlotsDelBloqueSii | src/main/java/com/concitamedica/domain/paciente/PacienteService.java:61-77 | the slots of a block, after removing the date's booked times, are exactly the grid times nobody has booked |
| PacienteService.RecorrerBloque | src/main/java/com/concitamedica/domain/paciente/PacienteService.java:69-77 | the slot loop builds exactly the free grid times of the block |
| PacienteService.CalcularDisponibilidad | src/main/java/com/concitamedica/domain/paciente/PacienteService.java:41-80 | calcularDisponibilidad returns the availability whose cases and members the lemmas above state |
| PacienteService.HoraTrasVueltas | src/main/java/com/concitamedica/domain/paciente/PacienteService.java:76 | the loop variable as written after k steps of `plusMinutes(30)`; `PacienteService.BucleOriginalNoTermina` and `PacienteService.SinVueltaHastaMedianoche` state how it behaves |
| PacienteService.HoraTrasVueltasAlineada | src/main/java/com/concitamedica/domain/paciente/PacienteService.java:76 | stepping by 30 minutes with wrap-around keeps a time that starts on the half hour on the half hour |
| PacienteService.BucleOriginalNoTermina | src/main/java/com/concitamedica/domain/paciente/PacienteService.java:72-77 | for a block starting on the half hour and ending after 23:30, the loop guard holds after every number of steps, so the loop as written never ends |
| PacienteService.SinVueltaHastaMedianoche | src/main/java/com/concitamedica/domain/paciente/PacienteService.java:72-77 | before midnight, the wrapping loop variable equals the unbounded one that the corrected loop uses |
| PacienteService.PrimerSolape | src/main/java/com/concitamedica/domain/paciente/PacienteService.java:116-127 | the first appointment of the day that is AGENDADA and overlaps the new half hour as open intervals, or nothing exactly when none does |
| PacienteService.PrimerSolapeSii | src/main/java/com/concitamedica/domain/paciente/PacienteService.java:109-127 | the overlap scan finds a conflict exactly when some AGENDADA appointment of the patient on that date overlaps the new half hour |
| PacienteService.ValidarReserva | src/main/java/com/concitamedica/domain/paciente/PacienteService.java:90-146 | the validations of agendarCita once patient and doctor are known, in the source's order; `PacienteService.ValidarReservaSii` states every outcome |
| PacienteService.Agendamiento | src/main/java/com/concitamedica/domain/paciente/PacienteService.java:83-146 | agendarCita on the tables: patient lookup, doctor lookup, then the validations; `PacienteService.AgendamientoSii` and `PacienteService.AgendamientoExitoso` state its outcomes |
| PacienteService.ValidarReservaSii | src/main/java/com/concitamedica/domain/paciente/PacienteService.java:90-146 | the validations run in order (past, pending appointment in the specialty, overlap, slot availability); each error occurs exactly when the earlier validations pass and its own fails; a conflict names an overlapping appointment; success yields an AGENDADA appointment of 30 minutes under the new key |
| PacienteService.AgendamientoSii | src/main/java/com/concitamedica/domain/paciente/PacienteService.java:83-88 | patient not found exactly for an unknown email; doctor not found exactly for a known patient and an unknown doctor; otherwise the outcome is the validation above for that patient and doctor |
| PacienteService.BuscarSolape | src/main/java/com/concitamedica/domain/paciente/PacienteService.java:116-127 | the for loop over the day's appointments returns the first overlap |
| PacienteService.ComprobarAgendamiento | src/main/java/com/concitamedica/domain/paciente/PacienteService.java:83-136 | the imperative validation pipeline returns the outcome stated by the lemmas above |
| PacienteService.AgendarCita | src/main/java/com/concitamedica/domain/paciente/PacienteService.java:83-159 | success appends exactly the new appointment and advances the key; every failure leaves the appointment table and the key unchanged |
| PacienteService.AgendamientoExitoso | src/main/java/com/concitamedica/domain/paciente/PacienteService.java:90-146 | a successful booking belongs to the signed-in patient and the requested doctor; it is AGENDADA and 30 minutes long; it starts no earlier than now; there is no pending appointment in the specialty and no overlap; its time is in the doctor's availability |
| PacienteService.AgendamientoConservaConsistencia | src/main/java/com/concitamedica/domain/paciente/PacienteService.java:138-146 | a booking keeps the database invariant |
| PacienteService.OcupadasTrasAgregar | src/main/java/com/concitamedica/domain/paciente/PacienteService.java:64-67 | adding an AGENDADA appointment adds exactly its start to the doctor's booked times of that date |
| PacienteService.SlotsTrasAgregar | src/main/java/com/concitamedica/domain/paciente/PacienteService.java:69-77 | adding an AGENDADA appointment removes exactly its start from a block's free slots |
| PacienteService.CitaQuitaSuHora | src/main/java/com/concitamedica/domain/paciente/PacienteService.java:41-80 | after an AGENDADA appointment is added, the doctor's availability on that date is the previous one minus its start |
| PacienteService.ReservaOcupaElHorario | src/main/java/com/concitamedica/domain/paciente/PacienteService.java:129-146 | the booked time was offered before the booking and is not offered after it; nothing else changes in that availability |
| PacienteService.ReservaDobleFalla | src/main/java/com/concitamedica/domain/paciente/PacienteService.java:129-136 | once a slot is booked, the same request fails for every patient, at any time and under any key |
| PacienteService.SolapeMismoPacienteFalla | src/main/java/com/concitamedica/domain/paciente/PacienteService.java:109-127 | a patient who booked a half hour cannot book an overlapping start on the same date, with any doctor |
| PacienteService.UnaCitaPendientePorEspecialidad | src/main/java/com/concitamedica/domain/paciente/PacienteService.java:97-107 | with the pending-appointment query read as "an AGENDADA appointment in that specialty starts after now", a second request in the same specialty before the first appointment starts is refused |
| PacienteService.PacientePorId | src/main/java/com/concitamedica/domain/paciente/PacienteService.java:257-259 | the patient lookup finds the account with that key only when its role is ROLE_PACIENTE |
| PacienteService.CancelarCitasFuturas | src/main/java/com/concitamedica/domain/paciente/PacienteService.java:264-273 | the cascade over the appointment table; `PacienteService.CancelarCitasFuturasFilas` states which rows change and how |
| PacienteService.CancelarCitasFuturasFilas | src/main/java/com/concitamedica/domain/paciente/PacienteService.java:264-273 | the cascade keeps every row in place; the patient's AGENDADA appointments starting between now and the horizon become CANCELADA_ADMIN, and every other row is unchanged |
| PacienteService.NadaQueCancelarTrasCancelar | src/main/java/com/concitamedica/domain/paciente/PacienteService.java:268-273 | after the cascade nothing is left for it to cancel |
| PacienteService.CancelarIdempotente | src/main/java/com/concitamedica/domain/paciente/PacienteService.java:264-273 | running the cascade twice gives the same table as running it once |
| PacienteService.EliminacionPacienteConservaConsistencia | src/main/java/com/concitamedica/domain/paciente/PacienteService.java:255-274 | deactivating a patient and cancelling their appointments keeps the database invariant |
| PacienteService.EliminarPaciente | src/main/java/com/concitamedica/domain/paciente/PacienteService.java:255-274 | fails exactly for a key that is not a patient's, changing nothing; otherwise disables that account only and cancels exactly the appointments the cascade names |
| PacienteService.ActualizacionPaciente | src/main/java/com/concitamedica/domain/paciente/PacienteService.java:233-253 | actualizarPaciente on the user table; `PacienteService.ActualizacionPacienteSii` states its errors and result |
| PacienteService.ActualizacionPacienteSii | src/main/java/com/concitamedica/domain/paciente/PacienteService.java:233-253 | not-found exactly for a key that is not a patient's; email-in-use exactly when another account holds the new email; on success the profile and email are replaced, while key, password, role and enabled flag stay, and emails stay unique |
| PacienteService.ActualizacionPacienteConservaConsistencia | src/main/java/com/concitamedica/domain/paciente/PacienteService.java:233-253 | a patient update keeps the database invariant |
| PacienteService.ActualizarPaciente | src/main/java/com/concitamedica/domain/paciente/PacienteService.java:233-253 | success rewrites only that patient's row; failure changes nothing |
| HorarioService.CreacionHorario | src/main/java/com/concitamedica/domain/horario/HorarioService.java:29-49 | an end not after the start fails first, whatever the doctor; doctor-not-found exactly for valid times and an unknown doctor; a new block carries the given weekday, start, end and doctor, with start before end |
| HorarioService.CrearHorario | src/main/java/com/concitamedica/domain/horario/HorarioService.java:29-49 | success appends exactly the new block; failure saves nothing |
| HorarioService.ObtenerHorariosPorMedico | src/main/java/com/concitamedica/domain/horario/HorarioService.java:57-68 | fails exactly for an unknown doctor; otherwise returns exactly that doctor's blocks |
| HorarioService.CrearYListar | src/main/java/com/concitamedica/domain/horario/HorarioService.java:29-68 | after a creation the doctor's list is the previous one followed by the new block; other doctors' lists are unchanged |
| HorarioService.CreacionHorarioConservaConsistencia | src/main/java/com/concitamedica/domain/horario/HorarioService.java:36-48 | a creation keeps the database invariant |
| HorarioService.EliminacionHorario | src/main/java/com/concitamedica/domain/horario/HorarioService.java:76-90 | not-found exactly for an unknown key; access denied exactly when the block belongs to another doctor; success removes exactly the blocks with that key and keeps every other block |
| HorarioService.EliminarDeLaLista | src/main/java/com/concitamedica/domain/horario/HorarioService.java:76-90 | after a deletion every doctor's list is their previous list without that block |
| HorarioService.EliminacionHorarioConservaConsistencia | src/main/java/com/concitamedica/domain/horario/HorarioService.java:76-90 | a deletion keeps the database invariant |
| HorarioService.EliminarHorario | src/main/java/com/concitamedica/domain/horario/HorarioService.java:76-90 | the table afterwards is the one the deletion describes; a failure deletes nothing |
| HorarioService.Bloques | src/main/java/com/concitamedica/domain/horario/HorarioService.java:107-121 | the batch's blocks have the input's length and order, and each carries its entry's weekday, times and the next key |
| HorarioService.CreacionEnLote | src/main/java/com/concitamedica/domain/horario/HorarioService.java:99-125 | crearHorariosEnLote on the tables; `HorarioService.CreacionEnLoteSii` states its errors and result |
| HorarioService.CreacionEnLoteSii | src/main/java/com/concitamedica/domain/horario/HorarioService.java:99-125 | the doctor is looked up first; then the first entry whose end is not after its start fails the batch and names its weekday; otherwise every entry becomes a block |
| HorarioService.LoteDeUno | src/main/java/com/concitamedica/domain/horario/HorarioService.java:99-125 | a batch of one entry behaves like a single creation, apart from the weekday named in its error |
| HorarioService.ConstruirLote | src/main/java/com/concitamedica/domain/horario/HorarioService.java:107-121 | the validating loop fails at the first invalid entry, and otherwise builds exactly the batch's blocks |
| HorarioService.CrearHorariosEnLote | src/main/java/com/concitamedica/domain/horario/HorarioService.java:99-125 | all or nothing: success appends all the batch's blocks; failure saves none |
| HorarioService.CreacionEnLoteConservaConsistencia | src/main/java/com/concitamedica/domain/horario/HorarioService.java:99-125 | a batch keeps the database invariant |
| HorarioService.LoteVisibleParaElMedico | src/main/java/com/concitamedica/domain/horario/HorarioService.java:99-125 | after a batch the doctor's list is the previous one followed by the batch in order |
| MedicoService.HorarioBase | src/main/java/com/concitamedica/domain/medico/MedicoService.java:78-92 | the base schedule has one block per working day, Monday to Friday in order, each 08:00–17:00 for the doctor under consecutive keys |
| MedicoService.HorarioBaseEnDia | src/main/java/com/concitamedica/domain/medico/MedicoService.java:78-92 | on each working day the base schedule has exactly that day's block |
| MedicoService.HorarioBasePorDia | src/main/java/com/concitamedica/domain/medico/MedicoService.java:78-92 | on a working day the doctor has exactly one base block, and on Saturday and Sunday none |
| MedicoService.AsignarHorarioBase | src/main/java/com/concitamedica/domain/medico/MedicoService.java:78-92 | the loop over the working days appends exactly the base schedule |
| MedicoService.CreacionMedico | src/main/java/com/concitamedica/domain/medico/MedicoService.java:40-76 | crearMedico on the tables; `MedicoService.CreacionMedicoSii` states its errors and the rows it creates |
| MedicoService.CreacionMedicoSii | src/main/java/com/concitamedica/domain/medico/MedicoService.java:40-76 | email-in-use exactly for a used email; a missing doctor role next; an unknown specialty next, so nothing is saved on any error; on success an enabled account with the encoded password and ROLE_MEDICO, a doctor pointing at it and at the specialty, and the base schedule |
| MedicoService.CrearMedico | src/main/java/com/concitamedica/domain/medico/MedicoService.java:40-76 | success appends the account, the doctor and the five base blocks; failure writes nothing |
| MedicoService.CreacionMedicoConservaConsistencia | src/main/java/com/concitamedica/domain/medico/MedicoService.java:40-76 | a doctor creation keeps the database invariant |
| MedicoService.ObtenerMedicoPorId | src/main/java/com/concitamedica/domain/medico/MedicoService.java:103-106 | empty exactly when no doctor has the key; otherwise the doctor with that key and their account |
| MedicoService.CrearYObtener | src/main/java/com/concitamedica/domain/medico/MedicoService.java:64-76 | a created doctor is then found under their key, with their account |
| MedicoService.MedicoNuevoUnico | src/main/java/com/concitamedica/domain/medico/MedicoService.java:64-71 | the new doctor and account keys are fresh, so the lookups find the new rows |
| MedicoService.BloquesBasePorDia | src/main/java/com/concitamedica/domain/medico/MedicoService.java:78-92 | the base schedule has one block on a working day and none otherwise |
| MedicoService.HorariosDelDiaTrasAlta | src/main/java/com/concitamedica/domain/medico/MedicoService.java:83-91 | a doctor with no earlier blocks has on each weekday only the newly added ones |
| MedicoService.BloqueMedicoNuevo | src/main/java/com/concitamedica/domain/medico/MedicoService.java:73 | a new doctor's block lookup finds an 08:00–17:00 block exactly on working days |
| MedicoService.SlotsSinCitasBase | src/main/java/com/concitamedica/domain/medico/MedicoService.java:87-88 | an empty 08:00–17:00 block offers 18 slots, 08:00 plus 30·k |
| MedicoService.DisponibilidadMedicoNuevo | src/main/java/com/concitamedica/domain/medico/MedicoService.java:73 | a newly created doctor is available at the 18 half hours from 08:00 on every working day and not at all at the weekend |
| MedicoService.ActualizacionMedico | src/main/java/com/concitamedica/domain/medico/MedicoService.java:118-146 | actualizarMedico on the tables; `MedicoService.ActualizacionMedicoSii` states its errors and result |
| MedicoService.ActualizacionMedicoSii | src/main/java/com/concitamedica/domain/medico/MedicoService.java:118-146 | not-found exactly for an unknown doctor; unknown-specialty exactly when the specialty changes to one that does not exist; on success the profile is replaced and the specialty set, while key, email, password, role and enabled flag are kept |
| MedicoService.ActualizarMedico | src/main/java/com/concitamedica/domain/medico/MedicoService.java:118-146 | success rewrites only that doctor and their account; failure writes nothing |
| MedicoService.ActualizacionMedicoConservaConsistencia | src/main/java/com/concitamedica/domain/medico/MedicoService.java:118-146 | a doctor update keeps the database invariant |
| MedicoService.EliminacionMedico | src/main/java/com/concitamedica/domain/medico/MedicoService.java:149-153 | eliminarMedico on the tables; `MedicoService.EliminacionMedicoSii` states its outcomes |
| MedicoService.EliminacionMedicoSii | src/main/java/com/concitamedica/domain/medico/MedicoService.java:149-153 | an unknown key changes nothing; a doctor with appointments cannot be deleted; otherwise exactly that doctor and their blocks are removed |
| MedicoService.EliminarMedico | src/main/java/com/concitamedica/domain/medico/MedicoService.java:149-153 | the tables afterwards are those the deletion describes; a failure deletes nothing |
| MedicoService.EliminarYObtener | src/main/java/com/concitamedica/domain/medico/MedicoService.java:149-153 | after a deletion the doctor is no longer found |
| MedicoService.EliminacionMedicoConservaConsistencia | src/main/java/com/concitamedica/domain/medico/MedicoService.java:149-153 | a deletion keeps the database invariant |
| UsuarioService.RegistroSii | src/main/java/com/concitamedica/domain/usuario/UsuarioService.java:33-56 | email-in-use exactly for a used email; a missing patient role next; the account is an enabled ROLE_PACIENTE whatever role was asked for, with the encoded password |
| UsuarioService.RegistrarUsuario | src/main/java/com/concitamedica/domain/usuario/UsuarioService.java:33-56 | success appends exactly the new account; failure leaves the user table unchanged |
| UsuarioService.RegistroConservaConsistencia | src/main/java/com/concitamedica/domain/usuario/UsuarioService.java:33-56 | a registration keeps the database invariant, emails unique included |
| UsuarioService.BuscarPorEmail | src/main/java/com/concitamedica/domain/usuario/UsuarioService.java:59-62 | not-found exactly when no account has the email; otherwise an account with it |
| UsuarioService.Registro | src/main/java/com/concitamedica/domain/usuario/UsuarioService.java:33-56 | registrarUsuario on the user table; `UsuarioService.RegistroSii` states its errors and the account it creates |
| UsuarioService.LoadUserByUsername | src/main/java/com/concitamedica/domain/usuario/UsuarioService.java:66-76 | the principal for an email; `UsuarioService.LoadUserByUsernameSii` states when it exists and what it carries |
| UsuarioService.LoadUserByUsernameSii | src/main/java/com/concitamedica/domain/usuario/UsuarioService.java:66-76 | a principal exists exactly for a known email; it carries that account's hash and enabled flag, never expires or locks, and has the role name as its single authority |
| UsuarioService.RegistroYLogin | src/main/java/com/concitamedica/domain/usuario/UsuarioService.java:66-76 | a newly registered user signs in enabled, with the encoded password and the patient authority only |
| UsuarioService.ActualizacionPerfil | src/main/java/com/concitamedica/domain/usuario/UsuarioService.java:79-92 | actualizarPerfil on the user table; `UsuarioService.ActualizacionPerfilSii` states its error and result |
| UsuarioService.ActualizacionPerfilSii | src/main/java/com/concitamedica/domain/usuario/UsuarioService.java:79-92 | not-found exactly for an unknown email; on success only the seven profile fields change, while key, email, password, role and enabled flag are kept |
| UsuarioService.ActualizarPerfil | src/main/java/com/concitamedica/domain/usuario/UsuarioService.java:79-92 | success rewrites only that account's row; failure changes nothing |
| UsuarioService.ActualizacionPerfilConservaConsistencia | src/main/java/com/concitamedica/domain/usuario/UsuarioService.java:79-92 | a profile update keeps the database invariant |
| UsuarioService.CambioPassword | src/main/java/com/concitamedica/domain/usuario/UsuarioService.java:95-107 | cambiarPassword on the user table; `UsuarioService.CambioPasswordSii` states its errors and result |
| UsuarioService.CambioPasswordSii | src/main/java/com/concitamedica/domain/usuario/UsuarioService.java:95-107 | not-found exactly for an unknown email; wrong-password exactly when the current password does not match the stored hash; on success only the hash changes, to the encoding of the new password |
| UsuarioService.CambiarPassword | src/main/java/com/concitamedica/domain/usuario/UsuarioService.java:95-107 | success rewrites only that account's row; failure leaves the stored hash and the table unchanged |
| UsuarioService.CambioPasswordYLogin | src/main/java/com/concitamedica/domain/usuario/UsuarioService.java:95-107 | with an encoder whose encodings match their passwords, the principal afterwards carries the new hash, and the new password is accepted as the current one |
| UsuarioService.CambioPasswordConservaConsistencia | src/main/java/com/concitamedica/domain/usuario/UsuarioService.java:95-107 | a password change keeps the database invariant |

## Left out

- Web controllers, security filters, CORS, OpenAPI and exception mapping: routing and status codes, with no domain logic.
- `ReporteService` (PDF reports through JasperReports, a foreign library), `MedicoAgendaService`, `EspecialidadService` and `DataInitializer` (startup seeding): not part of this model.
- `reemplazarHorarios` and `reactivarMedico`: the controllers call them, but the services contain no such methods.
- `crearPaciente`, `reactivarPaciente`, `obtenerProximasCitas`, `obtenerTodosLosPacientes`, `obtenerPacientePorId`, `obtenerTodosLosMedicos`, `buscarPorEspecialidad`: administrative listings and lookups outside the appointment engine. The password chosen by `crearPaciente` is among them.
- Response DTOs and display strings (full names, formatted times): presentation only. `MedicoResponseDTO` is modelled as `FichaMedico`, the doctor with their account.
- Password hashing: the encoder's `encode` and `matches` are function parameters. `CodificadorCoherente` names the one property the lemmas assume of them.
- The clock: "now" is a parameter, and so is the bound `now.plusYears(2)` used when deactivating a patient, since calendar arithmetic is not modelled. agendarCita (lines 93 and 100) and eliminarPaciente (line 265) read the clock twice within one request; the model uses one value for both reads, as if they happened at the same instant.
- The repository query `tieneCitaActivaConEspecialidad` is not declared in the repository shown. Its answer is a function parameter of the booking. `CitaActivaEnEspecialidad` is one reading of it, and only `UnaCitaPendientePorEspecialidad` uses that reading.
- `DiaSemana.from` is not shown. It is modelled as the ISO weekday of the date, with day 0 (1970-01-01) a Thursday.
- Times have minute precision. Seconds and nanoseconds are not modelled, and neither is `LocalTime.MAX` beyond "the whole date".
- Concurrency and transactions: the race between validating a slot and inserting the appointment is a database concern. A failing `@Transactional` operation is modelled as writing nothing; this covers `actualizarMedico`, whose setters run before the specialty lookup can fail.
- `findByMedicoIdAndDiaSemana` matching several blocks is modelled as the error `ResultadoNoUnico`, the framework's exception for a single-result query.
- `eliminarMedico`: `deleteById` cascades to the doctor's blocks (cascade ALL on `Medico.horarios`). A doctor with appointments is refused by the appointments' foreign key, modelled as `IntegridadReferencial`. The doctor's account is not deleted.
- Accounts are created with `enabled` set to true. The `Usuario` entity shown has no such field, while the services read and write it.
- `Consistente` is preserved through the lemmas named `...ConservaConsistencia`, which are stated on the tables' values. The methods on `Store` are not also annotated with it.
- Result order: Spring Data promises no order for `findAllByMedicoId` and the `...FechaHoraInicioBetween` queries, which carry no `OrderBy`. The model returns rows in table order. The list equalities of `HorarioService.CrearYListar`, `HorarioService.LoteVisibleParaElMedico` and `HorarioService.EliminarDeLaLista` rely on that order; their membership content does not. `PacienteService.PrimerSolape` picks the first conflicting appointment in table order, while the source reports whichever one the query returns first. `PacienteService.ValidarReservaSii` only promises that the reported appointment overlaps, which holds in any order.
- Keys: the source numbers each table separately (`GenerationType.IDENTITY`). The model draws every key from one shared counter, `nextId`, so its keys differ from the program's. `MedicoService.CreacionMedico`, `MedicoService.MedicoNuevoUnico` and `MedicoService.BloqueMedicoNuevo` rely on that arithmetic: the account takes `nextId`, the doctor `nextId + 1` and the base blocks the keys from `nextId + 2`. Besides the key values, the lemmas state that the new keys are fresh and that the lookups find the new rows.
- Bean Validation annotations on the request DTOs are enforced by the framework before the services run, and are not modelled.
- PacienteService.CalcularDisponibilidad: requires `MedicosConUsuario` (every doctor has an account), a guarantee the `usuario_id` foreign key gives and the source relies on without a guard. The same precondition sits on `PacienteService.AgendarCita`, `PacienteService.ComprobarAgendamiento`, `MedicoService.ObtenerMedicoPorId` and `MedicoService.ActualizarMedico`.
- PacienteService.DisponibilidadSii: stated for a date whose block lookup succeeded; the other cases are in `PacienteService.DisponibilidadCasos`.
- PacienteService.RecorrerBloque: models the corrected loop, which stops at the block end without wrapping at midnight (see Findings).

## Findings

| source | as written | input that shows it | evidently intended | confidence | as-written member | corrected member |
|---|---|---|---|---|---|---|
| src/main/java/com/concitamedica/domain/paciente/PacienteService.java:72-77 | the slot loop advances a `LocalTime` with `plusMinutes(30)`, which wraps at midnight, while looping until it reaches the block end | a block from 20:00 to 23:59: after 23:30 the time wraps to 00:00, which is again before 23:59, so the loop never ends | the walk stops at the end of the day, offering 20:00 … 23:30 | not executed | PacienteService.BucleOriginalNoTermina | PacienteService.RecorrerBloque |
