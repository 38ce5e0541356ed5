# Municipal phone directory — a verified model

This project models the core of a municipal phone-directory application in Dafny. The
application has a Next.js web front end, SQL route handlers and a spreadsheet import
script. The model covers:

- **Bulk import** (`BulkImport`). Cleaning and validating fixed and mobile numbers. The
  two row loops that skip a row or fan it out into a number, its users and their links.
  The processed/skipped counters. The relation-first clearing of the tables.
- **Directory read model** (`Contactos`). Joined query rows folded into one contact per
  number id, with the additional people at that number.
- **Searches** (`DirectoryTable`, `UsersPanel`, `AdminLists`, over the shared `Filtering`
  and `Text` modules). The accent- and case-insensitive directory search, and the
  substring filters of the accounts panel and the four administration lists.
- **Forms and small state machines**:
  - the add-contact form (`AddContact`);
  - the login modal and three-step password reset (`Navbar`);
  - the profile page's password checks and save (`Perfil`);
  - the accounts panel's edit dialog (`UsersPanel`);
  - the administration lists' edit dialog (`AdminLists`).
- **Excel export layout** (`ExportContacts`). Which rows are written and with which
  values, the group ranges, the merges, the alternating fills and the borders.
- **Route handlers** over tables held as maps from id to row:
  - accounts (`Usuarios`), login (`Login`) and own-password change (`OwnPassword`);
  - the four lookup tables through one shared handler class (`LookupTable`, instantiated
    by `Cargos`, `Direcciones`, `Ubicaciones`, `Unidades`);
  - the Bearer-token gates in front of them (`Http`; the `Bearer` scheme is defined in
    section 2.1 of RFC 6750).
- **Query executor** (`Database`). Positional parameter naming, Int-to-BigInt promotion,
  the out-of-range guard, the INSERT-position amount rule with its table fallback, and
  the conversion of result columns.

Collaborators whose code is not part of this model are parameters of the members that
use them:

- token verification and signing;
- JavaScript's conversion of a string to a number (`toNumber`), used by the MAX_SAFE_INTEGER comparison;
- password hashing and comparison;
- `Math.random`;
- the per-character `toLowerCase` and NFD tables;
- the answers of `fetch` calls;
- the database server's rows, and its rejections of the import script's statements.

A fresh database id is a parameter, or a counter in the import model.

## Model

| member | source | states |
|---|---|---|
| BulkImport.FormatField | db/poblarbd_completo.js:79-83 | A falsy cell gives null; otherwise the result is the trimmed text cut to at most `maxLength` characters, a prefix of the trimmed text. |
| BulkImport.WhitespaceFormatsToEmpty | db/poblarbd_completo.js:79-83 | A non-empty cell of blanks formats to "" and not to null. |
| BulkImport.CleanDigits | db/poblarbd_completo.js:86-106 | The result is only digits, never more than 9, and a suffix of the input; a ten-digit number starting with "56" keeps 8 digits, any other keeps min(length, 9). |
| BulkImport.CleanCellNumber | db/poblarbd_completo.js:86-106 | Null exactly for a falsy cell; otherwise only digits, never more than 9, a suffix of the digits of the trimmed text. |
| BulkImport.CleanDigitsValidity | db/poblarbd_completo.js:86-115 | The cleaned digits are 9 starting with 9 iff the input has at least 9 digits, the ninth from the end is 9, and it is not a ten-digit number starting with "56". |
| BulkImport.CellNumberValidity | db/poblarbd_completo.js:109-115 | `isValidCellNumber` holds iff the cell is truthy, its digits number at least 9, the ninth from the end is 9, and it is not a ten-digit number starting with "56". |
| BulkImport.FixedNumberValidity | db/poblarbd_completo.js:118-123 | A numeric cell is valid iff it is positive (0 is falsy); a text cell iff its trimmed text is non-empty and all digits; an empty cell never. |
| BulkImport.FanOutPlan | db/poblarbd_completo.js:222-276 | A row's plan is its number insert followed by a user insert and a link insert per user: 1 + 2N statements. |
| BulkImport.FanOutEffect | db/poblarbd_completo.js:222-276 | Running the whole plan adds the number at id b, each user at its fresh id, and a relation from each user to b; every relation still resolves. |
| BulkImport.PlanPrefixEffect | db/poblarbd_completo.js:199-285 | Any prefix of a plan, which is what a rejected statement leaves since there is no transaction, adds only rows at the new ids and keeps every relation resolving. |
| BulkImport.FixedUsersAtMostThree | db/poblarbd_completo.js:222-276 | Each non-blank USUARIO1..3 cell yields exactly one user, named by its formatted text, in column order: at most three. |
| BulkImport.UsersFromNames | db/poblarbd_completo.js:230-276 | One user per present, non-empty formatted name, in order, each with an empty cargo. |
| BulkImport.MobileUser | db/poblarbd_completo.js:400-443 | A mobile line gets one user, with its cargo, exactly when the formatted name is non-empty; otherwise none. |
| BulkImport.MobileNumeroShape | db/poblarbd_completo.js:347-443 | A stored mobile number is nine digits starting with 9, of type "Móvil", with a null ubicacion. |
| BulkImport.ImportDb.NewId | db/poblarbd_completo.js:199-276 | A new id is the next value of the id counter, which advances; the tables are unchanged. |
| BulkImport.ImportDb.Exec | db/poblarbd_completo.js:65-76 | A statement the server does not reject is applied to the tables; a rejected one changes nothing. |
| BulkImport.LinkUser | db/poblarbd_completo.js:230-276 | One user insert and its link insert, each with a new id; it succeeds iff neither is rejected, and otherwise only a prefix of the two took effect. |
| BulkImport.InsertFixedLine | db/poblarbd_completo.js:199-285 | The `try` block of a fixed line: on success the tables are those of the row's whole plan; on failure those of a proper prefix of it. |
| BulkImport.ProcessFixedRow | db/poblarbd_completo.js:156-285 | An invalid row is skipped with the tables untouched; a valid one is processed iff none of its statements is rejected, and leaves a prefix of its plan applied either way. |
| BulkImport.InsertMobileLine | db/poblarbd_completo.js:380-448 | The `try` block of a mobile line, with the same whole-plan-or-prefix outcome. |
| BulkImport.ProcessMobileRow | db/poblarbd_completo.js:319-448 | A mobile row is processed iff ESTADO_LINEA, upper-cased and trimmed, is "HABILITADO", the chip number is valid and no statement is rejected; an invalid row leaves the tables untouched. |
| BulkImport.ProcessFixedLines | db/poblarbd_completo.js:126-285 | Every examined row counts exactly once: processed + skipped equals the rows after the header; no more rows are processed than are valid, and all of them when nothing is rejected; relations keep resolving; with nothing rejected the tables are each valid row's plan run in row order from the first free id (`SheetTables`), and the next id is the one after them. |
| BulkImport.ProcessFixedAt | db/poblarbd_completo.js:156-282 | One pass of the row loop keeps the loop's facts: the processed count never exceeds the valid rows seen, and while nothing is rejected it equals them and the tables and next id are those of the entries so far. |
| BulkImport.ProcessMobileLines | db/poblarbd_completo.js:289-452 | The same counting and table guarantees for the mobile sheet, whose first two rows are headers. |
| BulkImport.ProcessMobileAt | db/poblarbd_completo.js:319-449 | One pass of the mobile row loop keeps the same loop facts. |
| BulkImport.TablesAfterIsPlan | db/poblarbd_completo.js:156-282 | Running the entries row by row is running their concatenated plan, and the next id is the first free id plus that plan's length. |
| BulkImport.EntriesEffect | db/poblarbd_completo.js:156-282 | Running a sheet's rows keeps every row already there, adds rows only at new ids, keeps relations resolving, adds one number per valid row, and stores each valid row with its users and their relations at its own ids. |
| BulkImport.EntriesCount | db/poblarbd_completo.js:185-191 | A row has an entry exactly when it passes validation: entries present are counted like valid rows. |
| BulkImport.ClearOrderKeepsResolved | db/poblarbd_completo.js:466-473 | Clearing relations, then users, then numbers keeps every relation resolving after each step. |
| BulkImport.UsersFirstBreaksIntegrity | db/poblarbd_completo.js:466-473 | Clearing users before relations can leave a relation pointing at no user. |
| BulkImport.Run | db/poblarbd_completo.js:456-503 | The run goes on iff the three clearing statements succeed; after it every row has a new id, relations resolve, and both sheets' rows are all counted; with nothing rejected the tables are exactly `ImportedTables`: the fixed sheet's rows over the cleared tables, then the mobile sheet's. |
| BulkImport.ImportEffect | db/poblarbd_completo.js:456-484 | A completed import with nothing rejected leaves resolving relations, one number per valid row of either sheet, and each valid row stored with its users and relations at its own ids, the fixed lines first. |
| Contactos.FirstIndex | app/api/contactos/route.ts:30-45 | The position of the first row carrying an id: it carries that id and no earlier row does. |
| Contactos.FirstAppearancesSpec | app/api/contactos/route.ts:28-61 | The listed ids are exactly the rows' ids, each once, ordered by first appearance. |
| Contactos.ContactForSpec | app/api/contactos/route.ts:33-57 | A contact keeps its first row's id and numero, its anexo is that numero only for "Fijo", its nombre defaults to "", and every additional contact has a non-empty nombre different from the primary one. |
| Contactos.ExtrasNames | app/api/contactos/route.ts:49-57 | Every additional contact has a non-empty nombre different from the primary nombre. |
| Contactos.AdditionalBound | app/api/contactos/route.ts:44-57 | A contact has at most (rows with its id) − 1 additional contacts. |
| Contactos.RepeatedExtrasKept | app/api/contactos/route.ts:49-57 | Two later rows with the same new nombre both become additional contacts; they are not deduplicated. |
| Contactos.FoldRows | app/api/contactos/route.ts:30-59 | The `forEach` leaves one map entry per id seen, equal to the reference contact, with ids in first-appearance order. |
| Contactos.ValuesInOrder | app/api/contactos/route.ts:61 | `Array.from(contactsMap.values())` lists the contacts in insertion order. |
| Contactos.GroupRows | app/api/contactos/route.ts:28-63 | The reply has one contact per distinct id, in order of first appearance, each equal to the reference contact of that id. |
| DirectoryTable.NormalizeTextSpec | app/components/content/DirectoryTable.tsx:52-57 | Normalising keeps exactly the non-combining characters of the lower-cased, decomposed text, in order. |
| DirectoryTable.AccentInsensitive | app/components/content/DirectoryTable.tsx:52-57 | A letter that decomposes into a base letter plus a combining mark normalises like the base letter. |
| DirectoryTable.FilteredContactsSpec | app/components/content/DirectoryTable.tsx:60-90 | A contact is shown iff it is in the list and one of its eight fields, or one of the five fields of an additional contact, contains the term after normalising; the result is an order-preserving subsequence, and its length (the counter above the table) is the number of matching contacts. |
| DirectoryTable.EmptyTermKeepsAll | app/components/content/DirectoryTable.tsx:60-90 | An empty search term shows every contact. |
| UsersPanel.FilteredUsersSpec | app/components/content/admin/users/Users.tsx:80-89 | A user is shown iff the lower-cased term occurs in the lower-cased nombre, email, usuario or rol; the result is an order-preserving subsequence. |
| UsersPanel.SpaceTermFilters | app/components/content/admin/users/Users.tsx:80-89 | The term is not trimmed: a single-space term hides a user none of whose four fields contains a space. |
| UsersPanel.RoleColor | app/components/content/admin/users/Users.tsx:255-268 | Each of the four roles gets its own badge class; anything else is gray. |
| UsersPanel.StatusColor | app/components/content/admin/users/Users.tsx:270-281 | Each of the three statuses gets its own badge class; anything else is gray. |
| UsersPanel.BadgesDistinct | app/components/content/admin/users/Users.tsx:255-281 | Two different known roles, or two different known statuses, never share a badge class. |
| UsersPanel.UsersPage.constructor | app/components/content/admin/users/Users.tsx:43-56 | The dialog starts closed, with no selection and the four fields empty. |
| UsersPanel.UsersPage.HandleEditUser | app/components/content/admin/users/Users.tsx:104-113 | Selecting an account opens the dialog with its nombre, email, rol and estado copied. |
| UsersPanel.UsersPage.HandleEditInputChange | app/components/content/admin/users/Users.tsx:119-130 | Any input name other than "rut" sets that field, every other field keeping its value; a change under "rut" leaves the form as it was, so the form never holds a "rut" field. |
| UsersPanel.UsersPage.EditBody | app/components/content/admin/users/Users.tsx:139-148 | The request body holds the id and every form field, the form's values winning (a form field named "id" would override the id), and never a "rut". |
| UsersPanel.UsersPage.UpdateAnswered | app/components/content/admin/users/Users.tsx:153-161 | A success closes the dialog and clears the selection; a failure leaves both as they were. |
| UsersPanel.UsersPage.CloseEditModal | app/components/content/admin/users/Users.tsx:234-243 | Closing the dialog clears the selection and resets the form to nombre, email, rol and estado all empty. |
| UsersPanel.EditSaveAlwaysRefused | app/components/content/admin/users/Users.tsx:119-148 | Because the input handler never writes "rut", every edit body lacks it and is refused by the accounts route with 400 "Todos los campos son requeridos". |
| UsersPanel.CorrectedEditBody | app/components/content/admin/users/Users.tsx:139-148 | The corrected body is the edit body plus the account's RUT, direccion and area, every other entry unchanged. |
| UsersPanel.CorrectedEditAccepted | app/api/usuarios/route.ts:186-222 | With every field filled, a well-formed e-mail and a known role and status, the route's checks accept the corrected body. |
| AdminLists.FilterByNameSpec | app/components/content/admin/locations/direction/Content.tsx:69-75 | A blank term shows the whole list; any other shows exactly the items whose lower-cased nombre contains the lower-cased, untrimmed term, in order. |
| AdminLists.EditDialog.constructor | app/components/content/admin/locations/direction/Content.tsx:57-65 | The dialog starts closed, with no selection, an empty nombre and no error. |
| AdminLists.EditDialog.HandleEdit | app/components/content/admin/locations/direction/Content.tsx:106-113 | Opening seeds the form with the selected nombre and clears the errors. |
| AdminLists.EditDialog.ChangeNombre | app/components/content/admin/locations/direction/Content.tsx:313-318 | Typing sets nombre and changes nothing else. |
| AdminLists.EditDialog.ValidateEditForm | app/components/content/admin/locations/direction/Content.tsx:120-129 | Valid iff nombre has a non-whitespace character; the error is set exactly when invalid. |
| AdminLists.EditDialog.SubmitEdit | app/components/content/admin/locations/direction/Content.tsx:131-151 | A request `{id, nombre}` is sent iff the form is valid and a row is selected. |
| AdminLists.EditDialog.EditAnswered | app/components/content/admin/locations/direction/Content.tsx:155-161 | A success closes the dialog; a failure leaves it open. |
| AdminLists.EditDialog.CloseEditModal | app/components/content/admin/locations/direction/Content.tsx:203-208 | Closing clears the selection, resets nombre to "" and clears the errors. |
| AddContact.BlankIsEmptyTrim | app/components/content/AddContactModal.tsx:97-126 | `!value.trim()` holds exactly when the value is only whitespace. |
| AddContact.NumeroError | app/components/content/AddContactModal.tsx:97-106 | No error iff the number is not blank and its digits number 8 for Móvil or 4 for Fijo; a blank number is "required". |
| AddContact.UsuarioError | app/components/content/AddContactModal.tsx:130-136 | A user has an error iff its nombre is blank, or the line is Móvil and its cargo is blank; the nombre error comes first. |
| AddContact.UsuarioErrorsSpec | app/components/content/AddContactModal.tsx:128-138 | One message per invalid user, under that user's index, and none for valid users. |
| AddContact.CollectUsuarioErrors | app/components/content/AddContactModal.tsx:129-136 | The per-user pass records exactly the reference per-user messages: a blank name first, then, on a mobile line, a blank cargo. |
| AddContact.UsuarioErrorsEmpty | app/components/content/AddContactModal.tsx:138-140 | The sparse message array is non-empty exactly when some user is invalid, which is when `usuarios` gets an error. |
| AddContact.ValidateForm | app/components/content/AddContactModal.tsx:93-144 | Each field's error follows its rule (ubicacion only on Fijo), the users' errors are present iff some user is invalid, and the form is valid iff no error was recorded. |
| AddContact.DigitNumeroRule | app/components/content/AddContactModal.tsx:346-350 | For a number of digits, as the input keeps it, the only rule is the exact digit count. |
| AddContact.ThreeDigitFixedRefused | app/components/content/AddContactModal.tsx:378-380 | A 3-digit fixed number, which the helper text allows, is refused with the 4-digit message. |
| AddContact.NumeroChange | app/components/content/AddContactModal.tsx:346-350 | Typing keeps only the digits of what was typed, and clears the number's error. |
| AddContact.TextChange | app/components/content/AddContactModal.tsx:204-210 | Typing in direccion, unidad or ubicacion sets that field to the text as typed and clears its error when the error is a non-empty message; every other field and error is kept. |
| AddContact.AddUsuario | app/components/content/AddContactModal.tsx:229-236 | On Fijo a blank user is appended; on Móvil the form is unchanged. |
| AddContact.RemoveAt | app/components/content/AddContactModal.tsx:238-243 | The entry at the index is removed and the others keep their order. |
| AddContact.RemoveUsuario | app/components/content/AddContactModal.tsx:238-243 | The user at the index is removed, unless it is the only one. |
| AddContact.AddThenRemove | app/components/content/AddContactModal.tsx:229-243 | On a fixed line, removing the user just added restores the form. |
| AddContact.TipoChange | app/components/content/AddContactModal.tsx:245-253 | The new type, an empty number, one blank user; ubicacion cleared only for Móvil; direccion and unidad kept. |
| AddContact.UsuarioChange | app/components/content/AddContactModal.tsx:212-227 | One field of one user changes, and that user's error is blanked. |
| AddContact.Close | app/components/content/AddContactModal.tsx:191-202 | Closing restores the initial form and clears every error. |
| AddContact.HandlersKeepShape | app/components/content/AddContactModal.tsx:204-253 | Every handler keeps at least one user, and exactly one on a mobile line. |
| AddContact.CapOnlyInButton | app/components/content/AddContactModal.tsx:501 | `addUsuario` itself appends a sixth user; the five-user cap lives only in the button's visibility. |
| ExportContacts.Values | app/components/content/ExportContactsBtn.tsx:76-112 | Every row writes exactly eight values, in header order. |
| ExportContacts.ContactNumber | app/components/content/ExportContactsBtn.tsx:97-98 | `anexo \|\| numero \|\| ""` for Fijo, `numero \|\| ""` otherwise. |
| ExportContacts.GroupUpTo | app/components/content/ExportContactsBtn.tsx:101-131 | A group has its own row only for a non-empty nombre, one row per named additional person, each with the contact's type and number. |
| ExportContacts.GroupsAt | app/components/content/ExportContactsBtn.tsx:96-131 | The i-th group is built from the i-th contact. |
| ExportContacts.MergesExactly | app/components/content/ExportContactsBtn.tsx:177-180 | Columns A and B are merged over a range exactly when it has more than one row. |
| ExportContacts.OwnersMatchRanges | app/components/content/ExportContactsBtn.tsx:133-175 | One range per contact with rows, and none for contacts without rows. |
| ExportContacts.RangeOfOwner | app/components/content/ExportContactsBtn.tsx:133-175 | Each range spans exactly its contact's group size and has the fill of that contact's position. |
| ExportContacts.OwnersIncrease | app/components/content/ExportContactsBtn.tsx:96-175 | Ranges follow the contacts' order. |
| ExportContacts.EveryGroupOwned | app/components/content/ExportContactsBtn.tsx:133-175 | Every contact with rows gets a range. |
| ExportContacts.RangesWithinRows | app/components/content/ExportContactsBtn.tsx:93-175 | Ranges lie within the written data rows, and the last ends on the last row. |
| ExportContacts.RangesTile | app/components/content/ExportContactsBtn.tsx:93-175 | The first range starts at row 2 and each starts right after the previous one: ranges are disjoint, increasing and cover every data row. |
| ExportContacts.RangeHoldsGroup | app/components/content/ExportContactsBtn.tsx:133-175 | The rows a range covers are exactly its contact's group. |
| ExportContacts.SkippedContactRepeatsFill | app/components/content/ExportContactsBtn.tsx:136-137 | The fill follows the contact's position, not the group's: a contact without rows makes two neighbouring groups both white. |
| ExportContacts.BuildGroup | app/components/content/ExportContactsBtn.tsx:101-131 | The loop collects exactly the contact's group. |
| ExportContacts.WriteRows | app/components/content/ExportContactsBtn.tsx:140-165 | Writing a group appends its rows and advances the row counter past them. |
| ExportContacts.PlanSheet | app/components/content/ExportContactsBtn.tsx:93-180 | The planning pass produces the reference rows, ranges and merges of the listing. |
| ExportContacts.PaintRange | app/components/content/ExportContactsBtn.tsx:212-243 | Styling one range gives each of its rows the range's fill and borders. |
| ExportContacts.ApplyBorders | app/components/content/ExportContactsBtn.tsx:212-243 | The border pass over all ranges produces the reference styles. |
| ExportContacts.BordersOfPlan | app/components/content/ExportContactsBtn.tsx:212-243 | On the plan, each data row gets its group's fill, left and right borders, a top border only on the group's first row and a bottom border only on its last. |
| Navbar.CodeSubmitCheck | app/components/content/Navbar.tsx:113-172 | Accepted iff the passwords match and the password is 8–100 characters with an A–Z, a 0–9 and a special character; a mismatch is reported before a weak password. |
| Navbar.AnswerToast | app/components/content/Navbar.tsx:138-198 | A success toast, with the server's message, iff the answer is ok; otherwise the server's error, else the fallback; no answer is a connection error. |
| Navbar.LoginError | app/components/content/Navbar.tsx:62-84 | A failed login shows the server's error when it has one, else a fixed non-empty message. |
| Navbar.NavbarState.constructor | app/components/content/Navbar.tsx:26-47 | Everything starts closed and empty, at the e-mail step. |
| Navbar.NavbarState.OpenLogin | app/components/content/Navbar.tsx:260 | The login button opens the modal and changes nothing else. |
| Navbar.NavbarState.HandleLogin | app/components/content/Navbar.tsx:62-84 | A success closes the modal and clears the credentials and error; a failure keeps the modal open and sets the error. |
| Navbar.NavbarState.HandleResetPasswordClick | app/components/content/Navbar.tsx:99-101 | "Forgot password" shows the reset view and changes nothing else. |
| Navbar.NavbarState.HandleCancelReset | app/components/content/Navbar.tsx:103-110 | Back to the e-mail step, reset view hidden, e-mail, code and both passwords cleared. |
| Navbar.NavbarState.SubmitEmail | app/components/content/Navbar.tsx:138-145 | The code request goes out with the typed e-mail. |
| Navbar.NavbarState.EmailAnswered | app/components/content/Navbar.tsx:146-161 | Only an ok answer moves the flow from the e-mail step to the code step. |
| Navbar.NavbarState.SubmitCode | app/components/content/Navbar.tsx:163-180 | A failed check sends nothing and changes nothing; otherwise the reset request goes out with e-mail, code and new password. |
| Navbar.NavbarState.CodeAnswered | app/components/content/Navbar.tsx:181-198 | Only an ok answer moves the flow to the success step. |
| Navbar.NavbarState.BackToEmail | app/components/content/Navbar.tsx:744 | "Volver" returns to the e-mail step and keeps the fields. |
| Navbar.NavbarState.CloseModal | app/components/content/Navbar.tsx:200-211 | Closing hides the modal and the reset view, returns to the e-mail step and clears credentials, error and reset fields. |
| Navbar.StaleAnswerReopensAtCode | app/components/content/Navbar.tsx:138-211 | The close button is enabled during the code request: closing, then an ok answer, leaves the hidden reset view at the code step. |
| Perfil.PasswordCheck | app/perfil/page.tsx:62-110 | The checks run only when one of the three fields is filled, and fail in order: missing current, missing new, new shorter than 6, mismatch or empty confirmation. |
| Perfil.ProfileBody | app/perfil/page.tsx:117-128 | The profile update carries id, nombre, rol and estado "Activa", and never the edited e-mail, RUT, direccion or area. |
| Perfil.ProfileSaveAlwaysRefused | app/perfil/page.tsx:117-135 | The accounts route refuses every profile body with 400 "Todos los campos son requeridos". |
| Perfil.CorrectedProfileBody | app/perfil/page.tsx:116-128 | The corrected body adds the edited e-mail and the account's RUT, direccion and area. |
| Perfil.CorrectedProfileBodyAccepted | app/api/usuarios/route.ts:186-222 | With all fields filled, a well-formed e-mail and a known role, the route's checks accept the corrected body. |
| Perfil.FailureToast | app/perfil/page.tsx:132-171 | A failed answer shows the server's error, else the fallback; no answer is a connection error. |
| Perfil.ProfilePage.constructor | app/perfil/page.tsx:18-28 | The page starts not editing, with the toggles off and the fields empty. |
| Perfil.ProfilePage.HandleSubmit | app/perfil/page.tsx:84-175 | Nothing without a user; a failed check sends nothing; the profile update is sent first; the password change only when one was requested and the update succeeded; editing ends only on full success. |
| Perfil.ProfilePage.HandleCancel | app/perfil/page.tsx:178-191 | The e-mail comes back from the user, the three passwords are blanked, and the edit and all three toggles close. |
| Usuarios.EmailPatternSpec | app/api/usuarios/route.ts:102-105 | `^[^\s@]+@[^\s@]+\.[^\s@]+$` accepts exactly the whitespace-free strings with one `@`, text before it, and a dot with text on both sides after it. |
| Usuarios.PasswordCharsAlphanumeric | app/api/usuarios/route.ts:49-57 | The alphabet has 62 characters and is exactly [A-Za-z0-9]. |
| Usuarios.GenerateTempPassword | app/api/usuarios/route.ts:49-57 | The temporary password has exactly 8 characters, each from [A-Za-z0-9]. |
| Usuarios.CreateRejection | app/api/usuarios/route.ts:93-112 | 400 unless nombre, usuario, email, rol and rut are all given, the e-mail matches and the role is known; id_direccion and id_area are optional. |
| Usuarios.UpdateRejection | app/api/usuarios/route.ts:186-222 | 400 unless all eight fields are given, the e-mail matches, the role is one of four and the status one of three. |
| Usuarios.UpdateNotices | app/api/usuarios/route.ts:295-315 | One notice per changed estado, rol and e-mail, addressed to the new e-mail, nothing else, and in that order: estado, rol, e-mail. |
| Usuarios.Accounts.constructor | app/api/usuarios/route.ts:87-181 | The table starts as given. |
| Usuarios.Accounts.Create | app/api/usuarios/route.ts:87-181 | 409 when the login name, e-mail or RUT is taken; otherwise exactly one account is inserted, active, with the hashed temporary password; uniqueness is preserved. |
| Usuarios.Accounts.Update | app/api/usuarios/route.ts:184-328 | 404 for an unknown id; the clash check runs only when e-mail or RUT changed (409); success overwrites exactly the seven fields of that id; uniqueness is preserved. |
| Usuarios.Accounts.Delete | app/api/usuarios/route.ts:331-385 | 400 without an id, 404 for an unknown one, otherwise only that account is removed. |
| OwnPassword.ChangeOwnPassword | app/api/usuarios/change-own-password/route.ts:20-102 | 400 for a missing field, 400 for a short password before any lookup, 404 for a missing or inactive account, 400 for a wrong current password; on success only that account's hash changes. |
| Login.RolOrDefault | app/api/auth/login/route.ts:71-91 | An empty role becomes "Usuario"; any other is kept. |
| Login.PayloadOf | app/api/auth/login/route.ts:71-91 | The token payload carries the account's id, usuario, nombre and email, and its role with the default. |
| Login.LoginReplyFor | app/api/auth/login/route.ts:21-100 | 400 for missing credentials; success iff the first row is active and the password matches, with the same payload signed and returned. |
| Login.OnlyFirstRow | app/api/auth/login/route.ts:51 | Rows after the first never change the reply. |
| Login.UnknownAndWrongPasswordAlike | app/api/auth/login/route.ts:44-68 | An unknown login name and a wrong password get the same 401 reply. |
| Login.InactiveRefusedFirst | app/api/auth/login/route.ts:54-59 | An inactive account gets 401 "Usuario inactivo" whatever the password comparison says. |
| Http.BearerToken | app/api/cargos/route.ts:41-50 | A token exists iff the header starts with "Bearer ", and it is what follows the prefix. |
| Http.AdminGate | app/api/cargos/route.ts:39-56 | 401 without a Bearer header, 403 for a token that does not verify or a non-Administrador role, otherwise the caller's payload. |
| Http.ReaderGate | app/api/ubicaciones/route.ts:14-28 | 401 without a Bearer header, 401 "Token inválido" for a token that does not verify; any role passes. |
| Http.GatesDifferOnlyInRole | app/api/ubicaciones/route.ts:14-74 | The two gates agree except on the role. |
| Http.WrongSchemeRefused | app/api/cargos/route.ts:41-47 | A lower-case "bearer" header is refused with 401 whatever the token. |
| LookupTable.NameOnlyQueriesRun | app/api/cargos/route.ts:58-250 | The cargo statements use `@param1`/`@param2` with matching parameters, so all of them run. |
| LookupTable.OwnNameAllowed | app/api/cargos/route.ts:132-160 | When names are unique, keeping a row's own name is not a conflict. |
| LookupTable.NameTable.constructor | app/api/cargos/route.ts:12-34 | The table starts as given. |
| LookupTable.NameTable.List | app/api/cargos/route.ts:12-34 | GET has no gate and lists every row. |
| LookupTable.NameTable.ListForReader | app/api/ubicaciones/route.ts:12-52 | GET lists every row iff the reader gate passes, and answers 401 otherwise. |
| LookupTable.NameTable.Post | app/api/cargos/route.ts:37-108 | Gate, 400 for a missing name, 400 (not 409) for a duplicate, else exactly one row is inserted; unique names stay unique. |
| LookupTable.NameTable.Put | app/api/cargos/route.ts:111-192 | Gate, 400 for missing id or name, 400 when another row has the name, 404 for an unknown id, else only that row changes; unique names stay unique. |
| LookupTable.NameTable.Delete | app/api/cargos/route.ts:195-258 | Gate, 400 without an id, 404 for an unknown one, else only that row goes; whether the reply says `success` depends on the table. |
| Direcciones.DireccionQueriesRun | app/api/direcciones/route.ts:61-247 | The direccion statements have their placeholders bound and run. |
| Direcciones.StoredSigla | app/api/direcciones/route.ts:97 | `sigla \|\| null`: the stored sigla is null iff the request's sigla is missing or empty. |
| Direcciones.RenameWithoutSigla | app/api/direcciones/route.ts:136-183 | A rename that omits the sigla succeeds under the usual conditions and clears the stored sigla. |
| Unidades.WrittenQueriesNeverRun | app/api/unidades/route.ts:84-252 | The `@unidad`, `@nombre` and `@id` placeholders are never bound, so no unidad statement runs. |
| Unidades.CorrectedQueriesRun | app/api/unidades/route.ts:84-252 | With `@param1`/`@param2` placeholders, as in the other tables, every statement runs. |
| Unidades.Post | app/api/unidades/route.ts:53-124 | An authorised request with a name gets 500 and nothing is inserted; other requests get 400, 401 or 403. |
| Unidades.Put | app/api/unidades/route.ts:127-208 | An authorised request with id and name gets 500 and nothing changes. |
| Unidades.Delete | app/api/unidades/route.ts:211-271 | An authorised request with an id gets 500 and nothing is removed. |
| Database.ParamName | app/lib/database.ts:199-203 | The i-th parameter's name starts with "param". |
| Database.NeverBound | app/lib/database.ts:199-203 | A placeholder not starting with "param" is never bound. |
| Database.FindParam | app/lib/database.ts:58-61 | The first position of the parameter among the VALUES parameters, or none when absent. |
| Database.TablePositions | app/lib/database.ts:126-142 | Fixed amount positions exist exactly for the four known tables. |
| Database.DetectOutOfRange | app/lib/database.ts:36-37 | An index at or past the number of `@paramN` occurrences is never an amount. |
| Database.InsertRule | app/lib/database.ts:42-70 | A parameter first found at position k of VALUES is an amount iff the k-th field (trimmed, unbracketed, lower-cased) is an amount field. |
| Database.TableFallback | app/lib/database.ts:124-144 | When no earlier pattern decides, the known table's positions decide, and any other table gives false (the source throws instead for a table named `constructor` or `__proto__`). |
| Database.BindParameters | app/lib/database.ts:178-204 | The loop binds the reference bindings, and the promise is rejected iff some promoted value is above MAX_SAFE_INTEGER as JavaScript's `>` compares it: a number or bigint exactly, a string after conversion to a number, null as 0. |
| Database.BindingsSpec | app/lib/database.ts:178-204 | Each binding is the parameter at its own position, named `param{i+1}`; an overflow skips only its own binding. |
| Database.NamesIgnored | app/lib/database.ts:199-203 | A parameter's own `name` never affects the bindings. |
| Database.BindingType | app/lib/database.ts:179-187 | The value is kept; the type changes only for a marked Int, and only to BigInt. |
| Database.BoundNamesWithoutOverflow | app/lib/database.ts:178-204 | Without overflow the bound names are exactly `param1`..`paramN`. |
| Database.BindingsShort | app/lib/database.ts:178-204 | Never more bindings than parameters, and fewer as soon as one parameter overflows. |
| Database.StringAmountAboveLimit | app/lib/database.ts:181-194 | A promoted Int parameter given as a string whose number is above MAX_SAFE_INTEGER (or infinite) overflows: the promise is rejected and its binding skipped. |
| Database.ConvertValue | app/lib/database.ts:209-228 | A bigint in an amount column becomes a number within ±MAX_SAFE_INTEGER and its decimal string outside; every other value passes unchanged. |
| Database.RowOfKeys | app/lib/database.ts:206-231 | A row object has one key per column name and no other. |
| Database.RowOfLast | app/lib/database.ts:206-231 | Each key holds the converted value of the last column with that name. |
| Database.BuildRow | app/lib/database.ts:206-232 | The row handler builds the reference row object. |
| Database.ExecuteQuery | app/lib/database.ts:154-240 | The statement runs iff its placeholders are bound; it resolves iff it runs and nothing overflows; rows come back in arrival order. |
| Database.RunsWithoutPromotion | app/lib/database.ts:178-204 | With no Int parameters, a statement runs exactly when its placeholders are among the first N `paramN` names. |

## Left out

- The database connection lifecycle in `app/lib/database.ts` and in the import script. The server's rows are inputs. Only the import script's statements can be rejected by the server in this model (`BulkImport.ImportDb.Exec`). A route statement is rejected only when a placeholder is unbound or an amount overflows.
- Database.Overflows: a number parameter is a whole number here. A fractional number is not modelled; a string's converted value comes from the `toNumber` parameter, which may be fractional.
- Database.ExecuteQuery: a statement the server itself rejects is not modelled. Examples are a lost connection, an id that is not a GUID failing conversion to `uniqueidentifier`, and a constraint violation. The promise settles by binding and overflow alone.
- Usuarios.Accounts.Create, Usuarios.Accounts.Update, Usuarios.Accounts.Delete: the catch-all reply 500 "Error interno del servidor" (app/api/usuarios/route.ts:174-180, 321-327, 378-384) is not modelled. It follows a rejected statement or a throwing `hashPassword`. So an unknown id that is not a GUID gets 500 from the route, but 404 in the model.
- Usuarios.UpdateNotices: a sender that throws ends the notices early (app/api/usuarios/route.ts:296-315). The update still succeeds, and the remaining notices are not sent. The model returns all the notices the changes call for.
- OwnPassword.ChangeOwnPassword: the catch-all 500 (app/api/usuarios/change-own-password/route.ts:95-101), after a rejected statement or a throwing `comparePassword` or `hashPassword`, is not modelled.
- LookupTable.NameTable.Post, LookupTable.NameTable.Put, LookupTable.NameTable.Delete: the catch-all 500 after a rejected statement (app/api/cargos/route.ts:101-107, 185-191, 251-257) is not modelled. A non-GUID id on PUT or DELETE gets 404 in the model, not the route's 500. The unidades statements, which never run, are modelled.
- Login.LoginReplyFor: the catch-all 500 (app/api/auth/login/route.ts:93-99), after a rejected lookup or a throwing `comparePassword` or `generateToken`, is not modelled. Failures are 400 or 401 only.
- BulkImport.FormatField, BulkImport.CleanCellNumber, BulkImport.IsValidCellNumber, BulkImport.IsValidFixedNumber, BulkImport.EstadoLinea: a cell from `sheet_to_json` (db/poblarbd_completo.js:37-40) is blank, text or a whole number here. Fractional numbers, booleans, dates and numbers whose `String` form is in exponent notation are not modelled. An example is `1.5`, whose `.` would be stripped by the digit cleaning.
- AddContact.NumeroChange: the input's `maxLength` (4 on a fixed line, 8 otherwise; app/components/content/AddContactModal.tsx:371) is enforced by the browser before the handler runs. The model takes the typed text as given and does not cap it.
- Database.TablePositions, Database.TableFallback: the positions object is a plain object, so an INSERT into a table named `constructor` or `__proto__` finds an inherited member. `.includes` then throws (app/lib/database.ts:131-141). The model gives no positions and the verdict false.
- The SQL text itself (joins, ORDER BY, the `+56` concatenation): query results are input sequences and tables are maps.
- The check-then-insert races of the route handlers: each handler is one atomic step.
- The UPDATE pattern and the keyword-proximity pattern of `detectMontoFieldFromQuery`, and its comment stripping: their verdicts are inputs of `Database.DetectMonto`.
- `verifyToken`, `generateToken`, `hashPassword`, `comparePassword` and the e-mail senders: their code is not part of this model, so they are parameters. The notices the accounts route sends are returned as values.
- `Math.random` in `generateTempPassword`: the eight draws are a parameter.
- Unicode case mapping and NFD decomposition: per-character tables given as parameters.
- Reading the spreadsheet with `xlsx`, and the ExcelJS workbook: alignment, column widths, header styling, `writeBuffer` and the download. Only the row, range, merge, fill and border plan is modelled.
- ExportContacts.BordersOfPlan: styles are kept per row, not per cell; `eachCell` gives all eight cells of a row the same style.
- Null or undefined fields of the contacts listing are modelled as the empty string.
- String lengths are counts of characters, not of UTF-16 code units.
- The `CharacterCounter` colour thresholds, which use floating point.
- The browser and session plumbing: the auth context, the route guards, `router.push`, `window.location.reload` (a boolean result of `Perfil.ProfilePage.HandleSubmit`), toast rendering and JSX.
- Async interleavings: each request is a submit method plus an answer method, or takes its answers as parameters. No other interleaving is modelled.
- The profile page's `fetchUserData` (loading the RUT) and its `handleInputChange` and `handleEdit`. These are plain field assignments with no rule.
- Pure presentation components, the broken `test.tsx` placeholder and the banner forms. Their one non-blank-name check is the rule modelled in `AdminLists.EditDialog.ValidateEditForm`.
- The accounts panel's delete and password dialogs, and the accounts GET listing.
- LookupTable.NameTable.Post, LookupTable.NameTable.Put: a success carries the message (and `success`), not the inserted or updated row the routes also return (`cargo: resultado[0]` and its kin, likewise the deleted row of the cargos DELETE); the new table is stated instead.
- AdminLists: the four `Content.tsx` pages differ only in entity names, so the dialog is modelled once. Rows cite the direccion page; the cargo, ubicacion and unidad pages repeat it line for line.

## Findings

| source | as written | input that shows it | evidently intended | confidence | as-written member | corrected member |
|---|---|---|---|---|---|---|
| app/api/unidades/route.ts:84-252 | Statements use `@unidad`, `@nombre`, `@id`, but the executor binds parameters only as `@param1`, `@param2`, … | Any authorised POST with a nombre, PUT with id and nombre, or DELETE with an id | Placeholders `@param1`/`@param2`, as in the cargo route, so that the statements run | high (not executed) | Unidades.WrittenQueriesNeverRun | Unidades.CorrectedQueriesRun |
| app/perfil/page.tsx:117-128 | The profile PUT body has only id, nombre, rol and estado; the accounts route requires email, rut, id_direccion and id_area too | Any save of the profile page, with or without a password change | Send the edited e-mail (the code comment says "solo email") and the account's stored RUT, direccion and area | high (not executed) | Perfil.ProfileSaveAlwaysRefused | Perfil.CorrectedProfileBodyAccepted |
| app/components/content/admin/users/Users.tsx:139-148 | The edit body has id, nombre, email, rol and estado; the accounts route also requires rut, id_direccion and id_area | Any save of the accounts panel's edit dialog | Send the account's RUT, direccion and area along with the edited fields | high (not executed) | UsersPanel.EditSaveAlwaysRefused | UsersPanel.CorrectedEditAccepted |

