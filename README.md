# Beacon attendance app: a verified model of its core

The app is an Android application for university teachers. It has three jobs:

- a teacher loads weekly class slots into a Firebase Realtime Database;
- the app shows those slots as a timetable;
- when the teacher walks into the classroom, the phone detects the room's iBeacon and records the teacher's attendance.

This project models the logic behind those jobs in Dafny and proves what it promises:

- **Saving a slot.** The save rejects any slot that double-books the teacher or crosses another course of the same cycle. An accepted save gets the next sequential id and section number.
- **Free days and hours.** The form offers exactly the hours that no other course and none of the teacher's own slots use. Free classrooms are the catalogue minus the rooms occupied at that time.
- **The timetable.** It groups each slot's hours into maximal runs and lays them out row by row. Course colours follow the order of first appearance.
- **The iBeacon parsers.** They decode an iBeacon frame: big-endian UUID halves, unsigned major and minor, signed TX power. The hex dump reads back to its bytes.
- **The receiver.** It confirms a beacon only on the second strong reading from the target device. Its check-in writes the attendance, the user's copy and the weekly counter, in that order.
- **The attendance view model.** It handles the receiver's resources until the attempt ends.
- **The one-shot event wrapper.** It delivers its content once.
- **The connection-state names.** They round-trip.
- **The lobby clock helpers.** They map weekdays to names and clock hours to the seven teaching blocks.
- **The two forms.** The schedule form and the sign-up form are modelled as classes whose fields their handlers update.

## How the system is represented

**Database reads and writes.**
- Every database read is a `Fetch<T>` input: a snapshot, or a failure.
- Every `await` of the check-in coroutine is an `Await<T>` input: a value, or an exception with its message.
- A chain of callbacks is flattened into one function over those inputs.
- A write is a datatype value naming its path and what it stores.

**Classes.**
- The objects the source updates in place are classes: the receiver, the view model, the event, and the two forms.
- Their methods state the whole new state.
- Scenario methods that build a fresh object show end-to-end behaviour.

**Values taken from outside.** The clock, time zone and date formatting, `UUID.toString`, `push().key` and its hash all become parameters.

**Kotlin numbers.**
- Signed bytes are the newtype `int8`; `and 0xFF` is `Unsigned`.
- Longs read by `ByteBuffer.getLong` are signed 64-bit values.
- All other integers are unbounded.

**Text.** Strings are `seq<char>`. Case folding, digit tests and blank tests cover ASCII only.

One module per source file:

| module | file |
|---|---|
| `Wrappers` | `Option` |
| `Models` | data classes of `models/` and `util/Recurso.kt`, database node shapes, `Fetch` |
| `Text` | string helpers (ASCII) |
| `Collections` | `mapNotNull`, `maxOrNull`, the shared max+1 id rule, `distinct`, subsequences |
| `Horarios` | `FbViewModel.kt`: courses, free days and hours, the slot save |
| `Aulas` | `FbViewModel.kt`: classroom catalogue and free classrooms |
| `Timetable` | `auth/VerHorariosScreen.kt` |
| `Lobby` | `auth/LobbyScreen.kt` clock helpers and reminder pairs |
| `BeaconPayload` | both `parseIBeacon` versions |
| `Gatt` | `DataBeacon/BLE/BLEExtensiones.kt` |
| `Receiver` | `DataBeacon/BLE/GestorAsistenciaBLEReceptor.kt` |
| `Attendance` | `AsistenciaViewModel.kt` |
| `Events` | `Event.kt` |
| `Conexion` | `DataBeacon/EstadoConexion.kt` |
| `CargarHorario` | `auth/CargarHorarioScreen.kt` |
| `Signup` | `auth/SignupScreen.kt` |

## Model

| member | source | states |
|---|---|---|
| Collections.Present | app/src/main/java/com/example/beacons_app/FbViewModel.kt:302-304 | `mapNotNull`: a value is in the result exactly when it is present in the input; the result is no longer than the input |
| Collections.MaxOrNull | app/src/main/java/com/example/beacons_app/FbViewModel.kt:302-304 | `maxOrNull`: null exactly for an empty list; otherwise an element that bounds every element |
| Collections.NextId | app/src/main/java/com/example/beacons_app/AsistenciaViewModel.kt:186-197 | max+1 id rule: above every present id, 1 when none is present, and one more than a present id otherwise |
| Collections.Distinct | app/src/main/java/com/example/beacons_app/auth/VerHorariosScreen.kt:41 | `distinct()`: no duplicates, the same members as the input, and ordered by each value's first appearance in the input |
| Models.ToHorario | app/src/main/java/com/example/beacons_app/models/Horario.kt:3-13 | conversion of a slot node: each of the seven fields is kept when stored; an absent one takes the data class default (0 for the ids, modality and section, "" for day and room) |
| Models.ToCurso | app/src/main/java/com/example/beacons_app/models/Curso.kt:3-12 | conversion of a course node: stored id, cycle and section count are kept, absent ones take the data class default 0 |
| Horarios.CoursePairs | app/src/main/java/com/example/beacons_app/FbViewModel.kt:161-165 | a (id, name) pair is listed exactly when some course node stores both that id and that name; a node missing either is skipped |
| Horarios.CoursePairsConcat | app/src/main/java/com/example/beacons_app/FbViewModel.kt:161-165 | the pairs follow the table's node order: those of a concatenation are those of each part, in turn |
| Horarios.DropAssigned | app/src/main/java/com/example/beacons_app/FbViewModel.kt:172 | `filterNot`: keeps exactly the pairs whose course is not taken |
| Horarios.DropAssignedKeepsOrder | app/src/main/java/com/example/beacons_app/FbViewModel.kt:172 | the kept pairs are a subsequence of the input, order preserved |
| Horarios.CursosDisponiblesMeans | app/src/main/java/com/example/beacons_app/FbViewModel.kt:159-179 | failed course read gives the empty list; failed assignment read gives every course; otherwise the table's courses in order minus exactly those the teacher already teaches |
| Horarios.OcupadasPorCurso | app/src/main/java/com/example/beacons_app/FbViewModel.kt:184-193 | the first loop builds, for every day, the hours other courses use on it |
| Horarios.OcupadasPorUsuario | app/src/main/java/com/example/beacons_app/FbViewModel.kt:195-201 | the second loop builds, for every day, the hours of the teacher's own slots |
| Horarios.CourseBusyMeans | app/src/main/java/com/example/beacons_app/FbViewModel.kt:184-193 | an hour is busy for other courses exactly when a slot of a different course on that day holds it |
| Horarios.TeacherBusyMeans | app/src/main/java/com/example/beacons_app/FbViewModel.kt:195-201 | an hour is busy for the teacher exactly when one of the teacher's slots on that day holds it |
| Horarios.FreeHoursFromMeans | app/src/main/java/com/example/beacons_app/FbViewModel.kt:205-207 | `(1..7) - busy`: exactly the hours of the range not busy, strictly ascending |
| Horarios.FreeGridMeans | app/src/main/java/com/example/beacons_app/FbViewModel.kt:203-209 | an hour is offered exactly when it lies in 1..7 and neither another course's slot nor the teacher's own slot uses it that day; offered hours ascend |
| Horarios.DiasYHorasDisponibles | app/src/main/java/com/example/beacons_app/FbViewModel.kt:182-217 | an empty map when either read fails; otherwise exactly the six weekdays, each with its free hours |
| Horarios.FindTeacherConflict | app/src/main/java/com/example/beacons_app/FbViewModel.kt:263-280 | the flag-and-break scan answers true exactly when a teacher's slot has the candidate's day (absent reads as "") and shares an hour |
| Horarios.CollectConflictingCourses | app/src/main/java/com/example/beacons_app/FbViewModel.kt:283-297 | the conflict set holds exactly the other courses with a slot on that day sharing an hour; it is empty exactly when no such slot exists |
| Horarios.IdsHorario | app/src/main/java/com/example/beacons_app/FbViewModel.kt:302-304 | one id read per slot node, in order |
| Horarios.GuardarHorarioCompleto | app/src/main/java/com/example/beacons_app/FbViewModel.kt:247-394 | the save with its loops gives the outcome of the flattened callback chain |
| Horarios.TeacherClashRejects | app/src/main/java/com/example/beacons_app/FbViewModel.kt:263-280 | any teacher slot sharing the day and an hour rejects the save with the crossing message and no writes |
| Horarios.CycleClashRejects | app/src/main/java/com/example/beacons_app/FbViewModel.kt:365-378 | an overlapping slot of a different course of the same cycle rejects the save with the crossing message and no writes |
| Horarios.AcceptedSaveMeans | app/src/main/java/com/example/beacons_app/FbViewModel.kt:299-356 | an accepted save had every read succeed, no teacher conflict and no same-cycle clash; it writes the slot under id max+1 with section grupos+1, the teacher's assignment for 2025-1 at week 0, and the course's new section count, in one commit, answering "Horario guardado" |
| Horarios.FoundCourseNotMissing | app/src/main/java/com/example/beacons_app/FbViewModel.kt:247-260 | the save answers "Curso no encontrado" exactly when the course query finds no node |
| Horarios.PartialCourseNode | app/src/main/java/com/example/beacons_app/FbViewModel.kt:247-260 | a course node with an id and a cycle but no name is left out of the course list, yet its save is not rejected as missing: it uses the stored cycle and writes the section count 0 + 1 |
| Horarios.FailedSaveWritesNothing | app/src/main/java/com/example/beacons_app/FbViewModel.kt:350-356 | a failed save writes nothing; a successful one writes exactly three paths |
| Horarios.FailedStoreWritesNothing | app/src/main/java/com/example/beacons_app/FbViewModel.kt:299-363 | the storing step writes nothing when it fails and exactly three paths when it succeeds |
| Horarios.NextSlotId | app/src/main/java/com/example/beacons_app/FbViewModel.kt:300-305 | the new slot id is above every id of the last-slot snapshot, and 1 when it holds none |
| Horarios.OwnCourseSlotsIgnored | app/src/main/java/com/example/beacons_app/FbViewModel.kt:289-294 | slots of the candidate's own course never change the outcome (sections of one course may overlap) |
| Horarios.SaveKeepsTeacherConflictFree | app/src/main/java/com/example/beacons_app/FbViewModel.kt:263-280 | invariant: a teacher schedule free of double bookings stays free after an accepted save |
| Horarios.CrossingNewSlotClashes | app/src/main/java/com/example/beacons_app/FbViewModel.kt:283-297 | a same-cycle crossing between a stored slot and the new one is one the check detects |
| Horarios.SaveKeepsCycleConsistent | app/src/main/java/com/example/beacons_app/FbViewModel.kt:365-378 | invariant: a slot table with no same-cycle crossing keeps none after an accepted save |
| Aulas.ThreeDigitDecimal | app/src/main/java/com/example/beacons_app/FbViewModel.kt:577-578 | a room number 100..999 is printed as its three decimal digits |
| Aulas.Catalogue | app/src/main/java/com/example/beacons_app/FbViewModel.kt:568-583 | the catalogue has 84 labels |
| Aulas.GenerarAulasFacultad | app/src/main/java/com/example/beacons_app/FbViewModel.kt:568-583 | the three nested loops build the catalogue |
| Aulas.CatalogueMembers | app/src/main/java/com/example/beacons_app/FbViewModel.kt:568-583 | a label is in the catalogue exactly when it is room 1..14 of floor 1..3, with suffix "" or "-NP" |
| Aulas.PositionParts | app/src/main/java/com/example/beacons_app/FbViewModel.kt:568-583 | each of the 84 loop positions gives a floor in 1..3, a room in 1..14 and a suffix index in 0..1 |
| Aulas.PartsPosition | app/src/main/java/com/example/beacons_app/FbViewModel.kt:568-583 | each (suffix, floor, room) of the loops has a position among the 84 that decodes back to it |
| Aulas.LabelSpelled | app/src/main/java/com/example/beacons_app/FbViewModel.kt:577-578 | a label is the floor digit, two room digits, then the suffix |
| Aulas.LabelAtDecodes | app/src/main/java/com/example/beacons_app/FbViewModel.kt:568-583 | each label reads back to its loop position |
| Aulas.CatalogueDistinct | app/src/main/java/com/example/beacons_app/FbViewModel.kt:568-583 | the 84 labels are pairwise distinct |
| Aulas.Insert | app/src/main/java/com/example/beacons_app/FbViewModel.kt:241 | insertion adds exactly one occurrence of the element |
| Aulas.SortStrings | app/src/main/java/com/example/beacons_app/FbViewModel.kt:241 | `sorted()` is a permutation of its input |
| Aulas.InsertSorted | app/src/main/java/com/example/beacons_app/FbViewModel.kt:241 | insertion keeps a sorted list sorted |
| Aulas.SortStringsSorted | app/src/main/java/com/example/beacons_app/FbViewModel.kt:241 | `sorted()` is ordered by `compareTo` |
| Aulas.Without | app/src/main/java/com/example/beacons_app/FbViewModel.kt:240 | `list - set` keeps exactly the elements not in the set, and no extra copies |
| Aulas.AulasDisponiblesMeans | app/src/main/java/com/example/beacons_app/FbViewModel.kt:232-245 | empty when the read fails; otherwise sorted, duplicate-free, and exactly the catalogue rooms that no slot with a non-blank room, the same day and a shared hour occupies |
| Text.UpperChar | app/src/main/java/com/example/beacons_app/DataBeacon/BLE/BLEExtensiones.kt:78-79 | `uppercase(Locale.US)` of one character, ASCII letters shifted, everything else kept |
| Text.Upper | app/src/main/java/com/example/beacons_app/DataBeacon/BLE/BLEExtensiones.kt:78-79 | `uppercase` maps every character and keeps the length |
| Text.DigitChar | app/src/main/java/com/example/beacons_app/FbViewModel.kt:577-578 | the digit character of a value 0..9 is a digit with that value |
| Text.Decimal | app/src/main/java/com/example/beacons_app/FbViewModel.kt:577-578 | `"$n"` is a non-empty string of digits |
| Text.DecimalValue | app/src/main/java/com/example/beacons_app/FbViewModel.kt:577-578 | the digits of `"$n"` spell `n`, with no leading zero |
| Text.StrLeTotal | app/src/main/java/com/example/beacons_app/FbViewModel.kt:241 | string order is total |
| Text.StrLeTransitive | app/src/main/java/com/example/beacons_app/FbViewModel.kt:241 | string order is transitive |
| Text.StrLeAntisymmetric | app/src/main/java/com/example/beacons_app/FbViewModel.kt:241 | string order is antisymmetric |
| Timetable.InsertInt | app/src/main/java/com/example/beacons_app/auth/VerHorariosScreen.kt:103 | insertion adds exactly one occurrence |
| Timetable.SortInts | app/src/main/java/com/example/beacons_app/auth/VerHorariosScreen.kt:103 | `horas.sorted()` is a permutation |
| Timetable.ConsAscending | app/src/main/java/com/example/beacons_app/auth/VerHorariosScreen.kt:103 | a value no larger than the head keeps a list ascending |
| Timetable.InsertIntAscending | app/src/main/java/com/example/beacons_app/auth/VerHorariosScreen.kt:103 | insertion keeps an ascending list ascending |
| Timetable.SortIntsAscending | app/src/main/java/com/example/beacons_app/auth/VerHorariosScreen.kt:103 | `sorted()` is ascending |
| Timetable.SortedHours | app/src/main/java/com/example/beacons_app/auth/VerHorariosScreen.kt:103 | sorted duplicate-free hours are strictly ascending with the same members |
| Timetable.GroupRuns | app/src/main/java/com/example/beacons_app/auth/VerHorariosScreen.kt:103-117 | the inner loop yields the runs of the sorted hours |
| Timetable.RunsFromOrdered | app/src/main/java/com/example/beacons_app/auth/VerHorariosScreen.kt:106-117 | every run starts no later than it ends, for any input |
| Timetable.RunsFromMeans | app/src/main/java/com/example/beacons_app/auth/VerHorariosScreen.kt:106-117 | from an open run, the runs are separated and cover exactly the open run plus the remaining hours |
| Timetable.RunsMeans | app/src/main/java/com/example/beacons_app/auth/VerHorariosScreen.kt:103-117 | for strictly ascending hours the runs are separated (maximal, disjoint) and cover exactly the hours |
| Timetable.SeparatedDisjoint | app/src/main/java/com/example/beacons_app/auth/VerHorariosScreen.kt:106-117 | any earlier run ends at least two before a later one starts |
| Timetable.SlotRuns | app/src/main/java/com/example/beacons_app/auth/VerHorariosScreen.kt:101-118 | a slot's blocks are separated, ascending and cover exactly its hour set |
| Timetable.BloquesSnoc | app/src/main/java/com/example/beacons_app/auth/VerHorariosScreen.kt:101-118 | one more slot extends only its own day's list, and none when its day is not a weekday label |
| Timetable.AgruparBloques | app/src/main/java/com/example/beacons_app/auth/VerHorariosScreen.kt:97-118 | the outer loop builds the block table |
| Timetable.SlotBlocksMeans | app/src/main/java/com/example/beacons_app/auth/VerHorariosScreen.kt:101-118 | a block comes from a slot exactly when it is one of the runs of that slot's hours |
| Timetable.DayBlocksMeans | app/src/main/java/com/example/beacons_app/auth/VerHorariosScreen.kt:101-118 | a day's list holds exactly the runs of the slots of that day |
| Timetable.BloquesMeans | app/src/main/java/com/example/beacons_app/auth/VerHorariosScreen.kt:95-118 | the table has exactly the six weekdays, each listing exactly the runs of its slots, each run well formed |
| Timetable.Find | app/src/main/java/com/example/beacons_app/auth/VerHorariosScreen.kt:142 | `find` returns the first block of the list starting at the hour (no earlier block starts there), and none only when no block starts there |
| Timetable.DibujarColumna | app/src/main/java/com/example/beacons_app/auth/VerHorariosScreen.kt:140-173 | the `while (fila <= 14)` loop terminates and draws the column layout |
| Timetable.LayoutMeans | app/src/main/java/com/example/beacons_app/auth/VerHorariosScreen.kt:140-173 | cells are contiguous from the start row; the last one crosses row 14; a drawn cell's block is the first block of the day's list starting at the cell's hour; a blank row has no block starting at its hour |
| Timetable.EmptyDay | app/src/main/java/com/example/beacons_app/auth/VerHorariosScreen.kt:140-173 | a day without blocks is 14 blank rows |
| Timetable.EmptyRowsFrom | app/src/main/java/com/example/beacons_app/auth/VerHorariosScreen.kt:140-173 | without blocks every remaining row is blank |
| Timetable.TablaHorario | app/src/main/java/com/example/beacons_app/auth/VerHorariosScreen.kt:83-173 | one column per weekday, each the layout of that day's blocks |
| Timetable.AsignarColores | app/src/main/java/com/example/beacons_app/auth/VerHorariosScreen.kt:41-44 | the indexed loop over distinct (course, section) pairs builds the colour map |
| Timetable.ColoresMeans | app/src/main/java/com/example/beacons_app/auth/VerHorariosScreen.kt:41-44 | the keys are exactly those of the pairs; every colour is a palette index; a pair whose key is not reused later keeps colour `i mod 7` |
| Timetable.ClaveInjective | app/src/main/java/com/example/beacons_app/auth/VerHorariosScreen.kt:43 | `idCurso*100+grupo` identifies the pair for sections below 100 |
| Timetable.ColoursByPosition | app/src/main/java/com/example/beacons_app/auth/VerHorariosScreen.kt:41-44 | with sections below 100, the i-th pair in order of first appearance gets colour `i mod 7` and every slot shown has a colour |
| Lobby.DayNamesInverse | app/src/main/java/com/example/beacons_app/auth/LobbyScreen.kt:359-368 | day name and day number are mutually inverse on the seven days; any other number is "Desconocido", which maps to nothing |
| Lobby.SlotDaysAreWeekdays | app/src/main/java/com/example/beacons_app/auth/LobbyScreen.kt:124-133 | the six slot day labels map to Monday..Saturday in order |
| Lobby.HoraPedagogicaMeans | app/src/main/java/com/example/beacons_app/auth/LobbyScreen.kt:371-383 | hours 8..21 map to block `(h-8)/2+1` in 1..7, each block being two clock hours; any other hour maps to -1 |
| Lobby.DiasHoras | app/src/main/java/com/example/beacons_app/auth/LobbyScreen.kt:122-137 | the nested loops build the reminder pairs, slot by slot and hour by hour |
| Lobby.DiasHorasMeans | app/src/main/java/com/example/beacons_app/auth/LobbyScreen.kt:122-137 | one pair per hour of each slot with a recognised day; a pair is listed exactly when such a slot has that day and hour |
| BeaconPayload.Unsigned | app/src/main/java/com/example/beacons_app/DataBeacon/BLE/GestorAsistenciaBLEReceptor.kt:243 | `and 0xFF` gives 0..255, congruent to the byte mod 256 and equal to it when non-negative |
| BeaconPayload.ByteOf | app/src/main/java/com/example/beacons_app/DataBeacon/BLE/GestorAsistenciaBLEReceptor.kt:243 | the byte of an unsigned value reads back as that value |
| BeaconPayload.BigEndianBytes | app/src/main/java/com/example/beacons_app/DataBeacon/BLE/GestorAsistenciaBLEReceptor.kt:246-247 | the n-byte encoding has n bytes |
| BeaconPayload.BigEndianRoundTrip | app/src/main/java/com/example/beacons_app/DataBeacon/BLE/GestorAsistenciaBLEReceptor.kt:246-247 | big-endian decoding inverts the encoding |
| BeaconPayload.Word | app/src/main/java/com/example/beacons_app/DataBeacon/BLE/GestorAsistenciaBLEReceptor.kt:248-249 | major/minor arithmetic gives 0..65535 with the high and low unsigned bytes as digits |
| BeaconPayload.ScanFrom | app/src/main/java/com/example/beacons_app/DataBeacon/BLE/GestorAsistenciaBLEReceptor.kt:241-259 | the scan returns the fields after the first prefix hit, and nothing only when there is no hit |
| BeaconPayload.ParseIBeacon | app/src/main/java/com/example/beacons_app/DataBeacon/BLE/BLEExtensiones.kt:84-103 | the extension's `while` loop, with signed comparisons, computes the extension parser |
| BeaconPayload.SignedCompareAgrees | app/src/main/java/com/example/beacons_app/DataBeacon/BLE/BLEExtensiones.kt:87 | comparing a signed byte with 0x02 or 0x15 agrees with comparing its unsigned value |
| BeaconPayload.ShortPayloadsNeverParse | app/src/main/java/com/example/beacons_app/DataBeacon/BLE/GestorAsistenciaBLEReceptor.kt:242 | records of 30 bytes or fewer parse in neither parser |
| BeaconPayload.DecodedFields | app/src/main/java/com/example/beacons_app/DataBeacon/BLE/GestorAsistenciaBLEReceptor.kt:248-250 | major and minor are 16-bit big-endian unsigned; TX power is the raw signed byte |
| BeaconPayload.UuidBytes | app/src/main/java/com/example/beacons_app/DataBeacon/BLE/GestorAsistenciaBLEReceptor.kt:246-247 | a UUID is 16 bytes |
| BeaconPayload.UuidRoundTrip | app/src/main/java/com/example/beacons_app/DataBeacon/BLE/GestorAsistenciaBLEReceptor.kt:246-247 | reading two big-endian longs recovers any UUID |
| BeaconPayload.Frame | app/src/main/java/com/example/beacons_app/DataBeacon/BLE/GestorAsistenciaBLEReceptor.kt:239 | an iBeacon frame is 23 bytes |
| BeaconPayload.WordRoundTrip | app/src/main/java/com/example/beacons_app/DataBeacon/BLE/GestorAsistenciaBLEReceptor.kt:248-249 | splitting a 16-bit value into bytes and reading it back gives the value |
| BeaconPayload.DecodesFrame | app/src/main/java/com/example/beacons_app/DataBeacon/BLE/GestorAsistenciaBLEReceptor.kt:244-251 | the fields after the prefix decode to the encoded beacon |
| BeaconPayload.ReceiverDecodesFrame | app/src/main/java/com/example/beacons_app/DataBeacon/BLE/GestorAsistenciaBLEReceptor.kt:241-259 | round trip: the receiver parses a frame at the start of a record of 31+ bytes to its beacon |
| BeaconPayload.ExtensionSeesShiftedRecord | app/src/main/java/com/example/beacons_app/DataBeacon/BLE/BLEExtensiones.kt:84-103 | the extension parser finds in a record what the receiver-style scan finds in it without its first two bytes |
| BeaconPayload.ParsersDisagree | app/src/main/java/com/example/beacons_app/DataBeacon/BLE/BLEExtensiones.kt:86-87 | on a frame at offset 0 whose UUID does not begin with 0x02, the receiver decodes the beacon but the extension finds nothing |
| BeaconPayload.ZeroUuidDisagrees | app/src/main/java/com/example/beacons_app/DataBeacon/BLE/BLEExtensiones.kt:84-103 | a record opening with the frame of an all-zero-UUID beacon is read by the receiver and missed by the extension |
| BeaconPayload.ZeroBytes | app/src/main/java/com/example/beacons_app/DataBeacon/BLE/GestorAsistenciaBLEReceptor.kt:246-247 | zero encodes to zero bytes |
| Gatt.ContainsFlagSetClear | app/src/main/java/com/example/beacons_app/DataBeacon/BLE/BLEExtensiones.kt:60-61 | `value and mask != 0` detects a set flag and not a cleared one |
| Gatt.PresentNames | app/src/main/java/com/example/beacons_app/DataBeacon/BLE/BLEExtensiones.kt:36-43 | at most one name per flag |
| Gatt.PrintCharacteristicProperties | app/src/main/java/com/example/beacons_app/DataBeacon/BLE/BLEExtensiones.kt:36-43 | the five `if … add` lines plus EMPTY, joined by ", " |
| Gatt.PresentNamesFive | app/src/main/java/com/example/beacons_app/DataBeacon/BLE/BLEExtensiones.kt:37-41 | for a five-flag table the names are the present flags' names one after the other, in table order |
| Gatt.PrintDescriptorProperties | app/src/main/java/com/example/beacons_app/DataBeacon/BLE/BLEExtensiones.kt:63-67 | the descriptor summary, READABLE then WRITABLE, or EMPTY |
| Gatt.SummaryNamesMeans | app/src/main/java/com/example/beacons_app/DataBeacon/BLE/BLEExtensiones.kt:36-43 | every set flag is named, every name has a set flag, in table order; EMPTY exactly when no flag is set |
| Gatt.NamesOf | app/src/main/java/com/example/beacons_app/DataBeacon/BLE/BLEExtensiones.kt:36-43 | the table's names in order |
| Gatt.PresentNamesMeans | app/src/main/java/com/example/beacons_app/DataBeacon/BLE/BLEExtensiones.kt:63-67 | the listed names are exactly those of the set flags, in table order; none exactly when no flag is set |
| Gatt.IsCccdMeans | app/src/main/java/com/example/beacons_app/DataBeacon/BLE/BLEExtensiones.kt:78-79 | `isCccd` is the case-insensitive comparison with the CCCD UUID |
| Gatt.HexDigitsRoundTrip | app/src/main/java/com/example/beacons_app/DataBeacon/BLE/BLEExtensiones.kt:78-79 | hex digits of either case read back; upper-casing maps a lower digit to the upper one |
| Gatt.Hex4 | app/src/main/java/com/example/beacons_app/DataBeacon/BLE/BLEExtensiones.kt:9 | a 16-bit alias prints as four hex digits |
| Gatt.CccdAliasOnly | app/src/main/java/com/example/beacons_app/DataBeacon/BLE/BLEExtensiones.kt:78-79 | among Bluetooth base UUIDs only alias 0x2902 is recognised as the CCCD |
| Gatt.CccdAliasRecognised | app/src/main/java/com/example/beacons_app/DataBeacon/BLE/BLEExtensiones.kt:78-79 | the CCCD printed in lower case is recognised |
| Gatt.HexByte | app/src/main/java/com/example/beacons_app/DataBeacon/BLE/BLEExtensiones.kt:82 | `%02X` prints two characters |
| Gatt.HexBodyLength | app/src/main/java/com/example/beacons_app/DataBeacon/BLE/BLEExtensiones.kt:81-82 | the body is 3n-1 characters for n ≥ 1 bytes and empty for none |
| Gatt.ToHexStringLength | app/src/main/java/com/example/beacons_app/DataBeacon/BLE/BLEExtensiones.kt:81-82 | the dump is 3n+1 characters for n ≥ 1 bytes and "0x" alone for none |
| Gatt.HexByteRoundTrip | app/src/main/java/com/example/beacons_app/DataBeacon/BLE/BLEExtensiones.kt:82 | the two digits of a byte read back to its unsigned value |
| Gatt.HexBodyRoundTrip | app/src/main/java/com/example/beacons_app/DataBeacon/BLE/BLEExtensiones.kt:81-82 | the body reads back to the bytes |
| Gatt.ToHexStringRoundTrip | app/src/main/java/com/example/beacons_app/DataBeacon/BLE/BLEExtensiones.kt:81-82 | the dump starts with "0x" and reads back to the bytes |
| Receiver.BeaconReceiver.constructor | app/src/main/java/com/example/beacons_app/DataBeacon/BLE/GestorAsistenciaBLEReceptor.kt:51 | a new receiver is idle with a zero count |
| Receiver.BeaconReceiver.Disconnect | app/src/main/java/com/example/beacons_app/DataBeacon/BLE/GestorAsistenciaBLEReceptor.kt:91-97 | stops a running scan, otherwise changes nothing |
| Receiver.BeaconReceiver.StartReceiving | app/src/main/java/com/example/beacons_app/DataBeacon/BLE/GestorAsistenciaBLEReceptor.kt:54-89 | Bluetooth off or location off emit their errors and change nothing else; otherwise the count resets and a filtered scan starts once |
| Receiver.BeaconReceiver.OnTimeout | app/src/main/java/com/example/beacons_app/DataBeacon/BLE/GestorAsistenciaBLEReceptor.kt:81-88 | a scan still running is stopped with the timeout error; otherwise nothing changes |
| Receiver.BeaconReceiver.OnScanResult | app/src/main/java/com/example/beacons_app/DataBeacon/BLE/GestorAsistenciaBLEReceptor.kt:107-143 | a result that does not count changes nothing; a counted one increments the count; the second stops the scan and returns the parsed beacon |
| Receiver.BeaconReceiver.OnScanFailed | app/src/main/java/com/example/beacons_app/DataBeacon/BLE/GestorAsistenciaBLEReceptor.kt:145-148 | emits the failure with its code, nothing else changes |
| Receiver.BeaconReceiver.CompleteCheckIn | app/src/main/java/com/example/beacons_app/DataBeacon/BLE/GestorAsistenciaBLEReceptor.kt:130-134 | the check-in's emissions follow the receiver's |
| Receiver.ConfirmsOnSecondDetection | app/src/main/java/com/example/beacons_app/DataBeacon/BLE/GestorAsistenciaBLEReceptor.kt:124-135 | from a fresh start the first counted result confirms nothing and the second returns its beacon and stops scanning |
| Receiver.RestartNeedsTwoDetections | app/src/main/java/com/example/beacons_app/DataBeacon/BLE/GestorAsistenciaBLEReceptor.kt:70 | after any restart one counted result never confirms |
| Receiver.CheckInEnds | app/src/main/java/com/example/beacons_app/DataBeacon/BLE/GestorAsistenciaBLEReceptor.kt:157-237 | a check-in emits either one error, or the record followed by Idle, and succeeds exactly when every await completes |
| Receiver.CheckInRecords | app/src/main/java/com/example/beacons_app/DataBeacon/BLE/GestorAsistenciaBLEReceptor.kt:181-228 | success records the next attendance id, the UUID, the slot's modality and id, present and connected; it writes the attendance, the user's copy under the same key, and the weekly counter +1 (0 when absent), in that order |
| Receiver.PresentKeeps | app/src/main/java/com/example/beacons_app/DataBeacon/BLE/GestorAsistenciaBLEReceptor.kt:181-186 | every present id survives `mapNotNull` |
| Receiver.CheckInBeacon | app/src/main/java/com/example/beacons_app/DataBeacon/BLE/GestorAsistenciaBLEReceptor.kt:166-179 | a known beacon is reused without a write; an unknown UUID gets a new beacon, written first, named after the UUID |
| Receiver.CheckInWritesInOrder | app/src/main/java/com/example/beacons_app/DataBeacon/BLE/GestorAsistenciaBLEReceptor.kt:190-228 | the user's copy is always written right after the attendance under the same key; a failed check-in never advances the counter |
| Attendance.Slots | app/src/main/java/com/example/beacons_app/AsistenciaViewModel.kt:73-76 | exactly the converted slots of the assignments that have one |
| Attendance.SlotsConcat | app/src/main/java/com/example/beacons_app/AsistenciaViewModel.kt:73-76 | `mapNotNull` keeps assignment order: the slots of a concatenation are those of each part, in turn |
| Attendance.SlotsOne | app/src/main/java/com/example/beacons_app/AsistenciaViewModel.kt:73-76 | each assignment contributes exactly its converted slot, or nothing when it has none |
| Attendance.SlotActualMeans | app/src/main/java/com/example/beacons_app/AsistenciaViewModel.kt:78-80 | `firstOrNull`: the first slot with that day and block, and none only when no slot matches |
| Attendance.SlotActualFirstAssignment | app/src/main/java/com/example/beacons_app/AsistenciaViewModel.kt:73-80 | the current slot is that of the first assignment, in stored order, whose slot matches; none exactly when no assignment's slot matches |
| Attendance.BuildAsistencia | app/src/main/java/com/example/beacons_app/AsistenciaViewModel.kt:88-110 | the record carries the new id and the received beacon; with a slot it takes its modality and id and the success text; without one, zeros and the out-of-schedule text |
| Attendance.NuevoIdAsistencia | app/src/main/java/com/example/beacons_app/AsistenciaViewModel.kt:186-197 | null exactly when the read fails; otherwise above every stored id, 1 when none, else max+1 |
| Attendance.RegistrarExitoMeans | app/src/main/java/com/example/beacons_app/AsistenciaViewModel.kt:60-175 | a failed read shows a pop-up and writes nothing; otherwise the record, for the signed-in user with the received beacon and the current slot, is written to both paths under one fresh id |
| Attendance.DispatchedMeans | app/src/main/java/com/example/beacons_app/AsistenciaViewModel.kt:42-46 | corrected guard: handles a prefix of the stream ending at the first Success or Error, or all of it when none occurs |
| Attendance.DispatchedUpToFirstTerminal | app/src/main/java/com/example/beacons_app/AsistenciaViewModel.kt:42-46 | corrected guard: stops right after the first terminal resource |
| Attendance.LoadingHidesOutcome | app/src/main/java/com/example/beacons_app/AsistenciaViewModel.kt:42-46 | as written a Loading before the Success hides the Success; the corrected guard handles it |
| Attendance.ConfirmedSession | app/src/main/java/com/example/beacons_app/DataBeacon/BLE/GestorAsistenciaBLEReceptor.kt:124-135 | a confirmed successful session emits Loading, Loading, Success, Idle |
| Attendance.ConfirmedSessionLost | app/src/main/java/com/example/beacons_app/AsistenciaViewModel.kt:42-46 | on that stream the guard as written handles only the first Loading; the corrected one reaches the Success |
| Attendance.AsistenciaViewModel.constructor | app/src/main/java/com/example/beacons_app/AsistenciaViewModel.kt:30-35 | idle state, nothing written |
| Attendance.AsistenciaViewModel.RegistrarAsistencia | app/src/main/java/com/example/beacons_app/AsistenciaViewModel.kt:37-42 | a new attempt opens the guard and changes nothing else |
| Attendance.AsistenciaViewModel.Collect | app/src/main/java/com/example/beacons_app/AsistenciaViewModel.kt:44-180 | corrected guard: after a terminal resource nothing changes; Loading sets progress; Error shows its message; Success applies the success handler's writes and record |
| Attendance.CollectStream | app/src/main/java/com/example/beacons_app/AsistenciaViewModel.kt:42-180 | the collector handles exactly the corrected prefix; it registers exactly when the stream has a Success or Error; it is busy exactly when the last handled resource is Loading |
| Events.Event.constructor | app/src/main/java/com/example/beacons_app/Event.kt:3-5 | a new event is unhandled |
| Events.Event.GetContentOrNull | app/src/main/java/com/example/beacons_app/Event.kt:7-15 | content the first time, null afterwards; handled from then on |
| Events.ReadRepeatedly | app/src/main/java/com/example/beacons_app/Event.kt:7-15 | n reads give the content at most once, on the first read only |
| Events.DeliveredOnce | app/src/main/java/com/example/beacons_app/Event.kt:3-15 | a new event read n times delivers its content exactly once, first |
| Conexion.FromToString | app/src/main/java/com/example/beacons_app/DataBeacon/EstadoConexion.kt:10-23 | reading a state's name gives the state back |
| Conexion.ToFromString | app/src/main/java/com/example/beacons_app/DataBeacon/EstadoConexion.kt:10-23 | naming the parsed state gives the string back exactly for the four names; any other string is Uninitialized |
| Conexion.ToStringInjective | app/src/main/java/com/example/beacons_app/DataBeacon/EstadoConexion.kt:18-23 | distinct states have distinct names |
| CargarHorario.QuitarPrimero | app/src/main/java/com/example/beacons_app/auth/CargarHorarioScreen.kt:209 | `list - element` leaves a list without the element unchanged and otherwise removes one entry |
| CargarHorario.QuitarPrimeroMeans | app/src/main/java/com/example/beacons_app/auth/CargarHorarioScreen.kt:209 | removal keeps every other value and the order; on a duplicate-free list no copy of the element remains |
| CargarHorario.AlternarMeans | app/src/main/java/com/example/beacons_app/auth/CargarHorarioScreen.kt:206-211 | toggling keeps the selection duplicate-free, flips membership of that hour only, and always changes the selection |
| CargarHorario.AlternarTwice | app/src/main/java/com/example/beacons_app/auth/CargarHorarioScreen.kt:206-211 | toggling an unselected hour twice restores the selection |
| CargarHorario.QuitarPrimeroAppended | app/src/main/java/com/example/beacons_app/auth/CargarHorarioScreen.kt:209 | removing an element just appended restores the list |
| CargarHorario.FiltrarHoras | app/src/main/java/com/example/beacons_app/auth/CargarHorarioScreen.kt:86-93 | the filter keeps only offered hours |
| CargarHorario.FiltrarHorasAscending | app/src/main/java/com/example/beacons_app/auth/CargarHorarioScreen.kt:86-93 | filtering an ascending hour list keeps it ascending |
| CargarHorario.FiltrarHorasMembers | app/src/main/java/com/example/beacons_app/auth/CargarHorarioScreen.kt:86-93 | an hour survives the filter exactly when it was listed and is free on that day |
| CargarHorario.FiltrarHorasMeans | app/src/main/java/com/example/beacons_app/auth/CargarHorarioScreen.kt:86-93 | the filter keeps ascending order and exactly the hours free on that day |
| CargarHorario.HorasDelDiaMeans | app/src/main/java/com/example/beacons_app/auth/CargarHorarioScreen.kt:86-93 | a chosen day offers exactly its free hours within 1..7, ascending |
| CargarHorario.VisiblesMeans | app/src/main/java/com/example/beacons_app/auth/CargarHorarioScreen.kt:162-169 | the menu shows exactly the courses whose name contains the filter ignoring case, in order; an empty filter shows all |
| CargarHorario.SlotFromForm | app/src/main/java/com/example/beacons_app/auth/CargarHorarioScreen.kt:257-266 | an enabled save builds modality 2 in person and 1 virtual, a room only in person, the chosen day and hours, id and section left at 0 |
| CargarHorario.SavedHoursGroup | app/src/main/java/com/example/beacons_app/auth/CargarHorarioScreen.kt:257-266 | a saved selection groups into separated runs within 1..7 covering exactly the selected hours |
| CargarHorario.FormularioHorario.constructor | app/src/main/java/com/example/beacons_app/auth/CargarHorarioScreen.kt:23-47 | the initial form state, all seven hours offered |
| CargarHorario.FormularioHorario.ResetearCampos | app/src/main/java/com/example/beacons_app/auth/CargarHorarioScreen.kt:49-59 | clears course, filter, day, hours, room and lists and offers all hours; modality, map, room list and requests untouched |
| CargarHorario.FormularioHorario.EfectoAulas | app/src/main/java/com/example/beacons_app/auth/CargarHorarioScreen.kt:96-105 | in person with a day and hours, rooms are requested; otherwise the room list and choice are cleared |
| CargarHorario.FormularioHorario.ElegirModalidadAsWritten | app/src/main/java/com/example/beacons_app/auth/CargarHorarioScreen.kt:128-132 | as written: reset and set the modality; courses are requested only when the modality changed |
| CargarHorario.FormularioHorario.ElegirModalidad | app/src/main/java/com/example/beacons_app/auth/CargarHorarioScreen.kt:128-132 | corrected: the same, with the course request issued on every choice |
| CargarHorario.FormularioHorario.RecibirCursos | app/src/main/java/com/example/beacons_app/auth/CargarHorarioScreen.kt:63-66 | the course list arrives for an outstanding request |
| CargarHorario.FormularioHorario.EscribirFiltro | app/src/main/java/com/example/beacons_app/auth/CargarHorarioScreen.kt:143-148 | typing is accepted only once a modality is set |
| CargarHorario.FormularioHorario.ElegirCurso | app/src/main/java/com/example/beacons_app/auth/CargarHorarioScreen.kt:162-169 | picking a listed course shows its name and requests its free days only when the course changed |
| CargarHorario.FormularioHorario.RecibirDisponibilidad | app/src/main/java/com/example/beacons_app/auth/CargarHorarioScreen.kt:70-82 | the days and map arrive; a chosen day's offered hours are refreshed |
| CargarHorario.FormularioHorario.ElegirDia | app/src/main/java/com/example/beacons_app/auth/CargarHorarioScreen.kt:193-196 | a new day offers its free hours, clears the hour selection and reruns the room effect; the same day changes nothing else |
| CargarHorario.FormularioHorario.AlternarHora | app/src/main/java/com/example/beacons_app/auth/CargarHorarioScreen.kt:206-211 | toggles the tapped hour and reruns the room effect |
| CargarHorario.FormularioHorario.RecibirAulas | app/src/main/java/com/example/beacons_app/auth/CargarHorarioScreen.kt:96-105 | the room list arrives for an outstanding request |
| CargarHorario.FormularioHorario.ElegirAula | app/src/main/java/com/example/beacons_app/auth/CargarHorarioScreen.kt:241-244 | picks an offered room, in person only |
| CargarHorario.FormularioHorario.Guardar | app/src/main/java/com/example/beacons_app/auth/CargarHorarioScreen.kt:255-266 | the enabled button sends the slot built from the form; its hours are non-empty, duplicate-free and within 1..7 |
| CargarHorario.FormularioHorario.RecibirGuardado | app/src/main/java/com/example/beacons_app/auth/CargarHorarioScreen.kt:268-272 | success clears the modality and resets the fields, and clears the room list only when the room effect's keys changed; failure changes nothing |
| CargarHorario.ReselectingEmptiesCourses | app/src/main/java/com/example/beacons_app/auth/CargarHorarioScreen.kt:61-67 | as written, picking the same modality again leaves no courses and no request to bring them back |
| CargarHorario.ReselectingRefetchesCourses | app/src/main/java/com/example/beacons_app/auth/CargarHorarioScreen.kt:61-67 | corrected, the same steps leave one request whose answer restores the list |
| Signup.SoloDigitos | app/src/main/java/com/example/beacons_app/auth/SignupScreen.kt:184 | filtering never lengthens the input |
| Signup.SoloDigitosMeans | app/src/main/java/com/example/beacons_app/auth/SignupScreen.kt:184 | keeps exactly the digits, in order; an all-digit input is unchanged |
| Signup.TelefonoMeans | app/src/main/java/com/example/beacons_app/auth/SignupScreen.kt:182-187 | the stored phone is at most 9 digits, a prefix of the input's digits, valid exactly when the input holds 9 or more digits; filtering again changes nothing |
| Signup.EmailMeans | app/src/main/java/com/example/beacons_app/auth/SignupScreen.kt:207-209 | valid exactly when it contains "@" and ends with ".edu.pe" (the non-empty test is redundant); equivalently an "@" before the suffix; at least 8 characters |
| Signup.SignupForm.constructor | app/src/main/java/com/example/beacons_app/auth/SignupScreen.kt:73-79 | empty fields, every flag true |
| Signup.SignupForm.EditarNombres | app/src/main/java/com/example/beacons_app/auth/SignupScreen.kt:119-121 | stores the names; flag = non-empty; nothing else changes |
| Signup.SignupForm.EditarApellidos | app/src/main/java/com/example/beacons_app/auth/SignupScreen.kt:140-142 | stores the surnames; flag = non-empty; nothing else changes |
| Signup.SignupForm.EditarCodigo | app/src/main/java/com/example/beacons_app/auth/SignupScreen.kt:161-163 | stores the code; flag = non-empty; nothing else changes |
| Signup.SignupForm.EditarTelefono | app/src/main/java/com/example/beacons_app/auth/SignupScreen.kt:182-187 | stores the filtered phone; flag = nine digits |
| Signup.SignupForm.EditarEmail | app/src/main/java/com/example/beacons_app/auth/SignupScreen.kt:207-209 | stores the e-mail; flag = the e-mail check |
| Signup.SignupForm.EditarPassword | app/src/main/java/com/example/beacons_app/auth/SignupScreen.kt:231-233 | stores the password; flag = 6 or more characters; the confirmation flag is not recomputed |
| Signup.SignupForm.EditarConfirmacion | app/src/main/java/com/example/beacons_app/auth/SignupScreen.kt:256-258 | stores the confirmation; flag = equal to the current password |
| Signup.SignupForm.RegistrarAsWritten | app/src/main/java/com/example/beacons_app/auth/SignupScreen.kt:291-308 | as written: submits exactly when the seven flags hold, i.e. each field is valid or untouched, and the confirmation matched the password of its own moment; sends e-mail, password and the new user |
| Signup.SignupForm.Registrar | app/src/main/java/com/example/beacons_app/auth/SignupScreen.kt:291-308 | corrected: submits exactly when every current field passes its check |
| Signup.CompletoMeans | app/src/main/java/com/example/beacons_app/auth/SignupScreen.kt:292-308 | a complete form registers a university e-mail, a 6+ character password equal to its confirmation, a 9-digit phone and non-empty names |
| Signup.UntouchedFormSubmits | app/src/main/java/com/example/beacons_app/auth/SignupScreen.kt:73-79 | as written, submitting an untouched form calls `onSignup` with an empty e-mail, password and names |
| Signup.StaleConfirmationSubmits | app/src/main/java/com/example/beacons_app/auth/SignupScreen.kt:256-258 | as written, changing the password after confirming still registers, with a confirmation that differs from the password |
| Signup.CorrectedGuardRefuses | app/src/main/java/com/example/beacons_app/auth/SignupScreen.kt:291-298 | with the corrected guard neither of those forms registers |

## Left out

- Firebase itself: listeners, threading, offline caching and transactions. Reads are inputs and writes are recorded values.
- The max+1 id allocation is not atomic in the database, so two concurrent saves could take the same id. Concurrency is not modelled.
- The Bluetooth stack: scanner objects, permissions, callback threads, and the `SharedFlow` buffer.
  - Emissions are modelled in call order.
  - The 10-second timeout coroutine is the explicit event `OnTimeout`.
- `Calendar`, the Lima time zone and `SimpleDateFormat`: the weekday, hour, date and time text are inputs.
- `UUID.toString()`, `push().key` and `hashCode()`: the UUID text, the pushed key and its hash are inputs.
- Navigation, Toasts, pop-up rendering, Compose layout (dp sizes, colours as `Color` values, hour labels), and the `delay(6000)` return to Idle.
- Logging: `printGattTable` and the log lines that use the hex dump. The hex dump itself is modelled.
- Course-name lookups for the timetable, and the notification scheduling that receives the reminder pairs.
- Database fields of the wrong type, where `getValue` throws: every stored field is taken to have its declared type, or to be absent.
- The attendance record follows its call sites, not `models/Asistencia.kt`: the check-in and the view model pass `beacon_uuid` and `conexion`, which that data class does not declare (GestorAsistenciaBLEReceptor.kt:190-199, AsistenciaViewModel.kt:88-110).
- Kotlin `Int`/`Long` overflow: ids, counters and section numbers are unbounded integers.
- Text:
  - case-insensitive comparison, `isDigit`, `isBlank` and `uppercase` are modelled on ASCII only;
  - `compareTo` on strings is modelled as ordering by code unit.
- Timetable.DibujarColumna: requires the blocks of a day to have start ≤ end. That always holds for blocks built from a slot's sorted hours.
- Timetable.ColoursByPosition: its statement assumes sections below 100. At 100 or more, the key `idCurso*100+grupo` can collide, and a later pair then overwrites an earlier pair's colour. `ColoresMeans` states the general case.
- The table is rebuilt on every recomposition: blocks are appended again to a list remembered across recompositions. The model builds the table once per slot list.
- Writes whose awaited call raised an exception are not recorded as applied.
- Writes that are not awaited (`setValue` in the view model) are recorded as issued.
- The schedule form:
  - The effects of one event run in declaration order, and a running request is never cancelled. A pending request is a counter.
  - The trailing dropdown icon buttons are not disabled together with their text fields, so the model lets a listed menu item be picked at any time.
  - `mapaDiasHoras` is never read and is not modelled.
  - The menu-expanded flags are not modelled.
  - The `?: return@Button` branch of save cannot run when the button is enabled.
- The sign-up form: password visibility toggles, error texts, and the navigation after `onSignup` are not modelled.
- Files outside the core: the login, lobby UI, history, professor list, success, main screens, the notification worker, dependency injection, `SharedViewModel`, and the second, commented-out copies of the receiver and the form.

## Findings

| source | as written | input that shows it | evidently intended | confidence | as-written member | corrected member |
|---|---|---|---|---|---|---|
| app/src/main/java/com/example/beacons_app/AsistenciaViewModel.kt:42-46 | `yaRegistrado` is set by the first resource collected, whatever it is, so only that one is handled | a confirmed session: the receiver emits Loading("Iniciando scan…"), Loading("Confirmando asistencia…"), Success, Idle; only the first Loading is handled and the attendance is never written by the view model | stop handling after the first Success or Error, so the outcome is processed | not executed | Attendance.ConfirmedSessionLost | Attendance.CollectStream |
| app/src/main/java/com/example/beacons_app/auth/SignupScreen.kt:73-79 | all seven validity flags start true and are only recomputed when their field is edited | pressing "Registrar" on an untouched form calls `onSignup("", "", Usuario(...))` | submit only when every current field passes its check | not executed | Signup.UntouchedFormSubmits | Signup.SignupForm.Registrar |
| app/src/main/java/com/example/beacons_app/auth/SignupScreen.kt:256-258 | the confirmation flag is computed when the confirmation is typed and not when the password changes | password "secreto", confirmation "secreto", then password "distinto": the form submits with a confirmation that does not match | compare confirmation and password at submission | not executed | Signup.StaleConfirmationSubmits | Signup.SignupForm.Registrar |
| app/src/main/java/com/example/beacons_app/auth/CargarHorarioScreen.kt:128-132 | choosing a modality resets the fields (emptying the course list), but the courses are fetched by an effect keyed on the modality, which does not rerun when the same modality is chosen again | choose "Presencial", receive the courses, choose "Presencial" again: the course list stays empty | refetch the courses whenever the reset empties them | not executed | CargarHorario.ReselectingEmptiesCourses | CargarHorario.FormularioHorario.ElegirModalidad |
