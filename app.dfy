/** PasswordManagerApp::update (src/main.rs): the in-memory entry editor, a
    state machine over the ordered entry list, a selected position and the
    three form fields, which saves the vault after every edit. */
module App {
  import opened Wrappers
  import opened Models
  import opened Primitives
  import opened Storage
  import opened Dashboard

  newtype u8 = x: int | 0 <= x < 256

  /** An iced theme; only its identity matters to the editor. */
  datatype Theme = Theme(name: string)

  datatype Message =
    | MasterPasswordChanged(input: string)
    | LoginPressed
    | SearchChanged(search: string)
    | SelectService(id: nat)
    | SaveEntry
    | DeleteService(id: nat)
    | GenerateNewPassword(len: nat)
    | ToggleVisibility
    | CopyPassword(password: string)
    | ThemeChanged(theme: Theme)
    | NewServiceChanged(service: string)
    | NewUserChanged(user: string)
    | NewPasswordChanged(password: string)
    | CancelEdit
    | LengthChanged(newLen: u8)

  /** The task update hands back to the runtime. */
  datatype Task = NoTask | ClipboardWrite(contents: string)

  /** The fields of PasswordManagerApp. */
  datatype AppState = AppState(
    masterPasswordInput: string,
    errorMessage: Option<string>,
    storage: Option<Storage>,
    store: PasswordStore,
    searchQuery: string,
    selectedService: Option<nat>,
    isPasswordVisible: bool,
    theme: Theme,
    newService: string,
    newUser: string,
    newPassword: string,
    passwordLength: u8)

  /** What one update produces: the new fields, the vault file afterwards and
      the returned task. */
  datatype Effect = Effect(state: AppState, vault: VaultFile, task: Task)

  /** PasswordManagerApp::default. */
  const Initial: AppState :=
    AppState("", None, None, PasswordStore([]), "", None, false, Theme("Nightfly"), "", "", "", 16)

  /** A selected position names an entry. */
  predicate SelectionInRange(s: AppState) {
    s.selectedService.Some? ==> s.selectedService.value < |s.store.entries|
  }

  /** The positions a message indexes without a bounds check exist:
      SelectService and DeleteService index by their argument, SaveEntry by
      the selection. */
  predicate IndicesInRange(s: AppState, msg: Message) {
    && (msg.SelectService? ==> msg.id < |s.store.entries|)
    && (msg.DeleteService? ==> msg.id < |s.store.entries|)
    && (msg.SaveEntry? ==> SelectionInRange(s))
  }

  /** The editor's invariant: a selected position names an entry, and
      nothing is selected while no vault is open. */
  predicate Consistent(s: AppState) {
    SelectionInRange(s) && (s.storage.None? ==> s.selectedService.None?)
  }

  /** The messages the running app delivers in state `s`, as view offers
      them: the login screen, the only source of LoginPressed, is shown while
      no vault is open; the dashboard offers SelectService(i) only for the
      positions the sidebar lists, and DeleteService only for the selected
      entry. */
  predicate Accepts(s: AppState, msg: Message) {
    && (msg.LoginPressed? ==> s.storage.None?)
    && (msg.SelectService? ==> s.storage.Some? && msg.id in SearchResults(s.store.entries, s.searchQuery))
    && (msg.DeleteService? ==> s.selectedService == Some(msg.id))
  }

  /** What the view offers is safe to handle: in a consistent state, every
      index a handler uses without a bounds check exists. */
  lemma AcceptedIndicesInRange(s: AppState, msg: Message)
    requires Consistent(s) && Accepts(s, msg)
    ensures IndicesInRange(s, msg)
  {
  }

  /** The form emptied and the selection dropped. */
  function ClearForm(s: AppState): (r: AppState)
    ensures r.newService == r.newUser == r.newPassword == "" && r.selectedService.None?
    ensures r.store == s.store && r.storage == s.storage && r.errorMessage == s.errorMessage
    ensures Consistent(r)
  {
    s.(newService := "", newUser := "", newPassword := "", selectedService := None)
  }

  /** The entry list after removing position `id`, as Vec::remove does. */
  function Removed(entries: seq<PasswordEntry>, id: nat): (r: seq<PasswordEntry>)
    requires id < |entries|
    ensures |r| == |entries| - 1
    ensures forall j :: 0 <= j < id ==> r[j] == entries[j]
    ensures forall j :: id <= j < |r| ==> r[j] == entries[j + 1]
  {
    entries[..id] + entries[id + 1..]
  }

  /** The entry list after saving the form: it replaces the selected entry,
      or is appended when nothing is selected. */
  function Edited(s: AppState): (r: seq<PasswordEntry>)
    requires SelectionInRange(s)
    ensures s.selectedService.Some? ==>
              && |r| == |s.store.entries|
              && r[s.selectedService.value] == PasswordEntry(s.newService, s.newUser, s.newPassword)
              && forall j :: 0 <= j < |r| && j != s.selectedService.value ==> r[j] == s.store.entries[j]
    ensures s.selectedService.None? ==>
              && |r| == |s.store.entries| + 1
              && r[..|s.store.entries|] == s.store.entries
              && r[|s.store.entries|] == PasswordEntry(s.newService, s.newUser, s.newPassword)
  {
    var entry := PasswordEntry(s.newService, s.newUser, s.newPassword);
    match s.selectedService
    case Some(id) => s.store.entries[id := entry]
    case None => s.store.entries + [entry]
  }

  /** One call of update. `vault` is the file before the call, `rng` the
      entropy a load or a save draws its salt or nonce from, `draw` the
      character draws of a generated password. */
  function Transition(s: AppState, msg: Message, p: Primitives, vault: VaultFile,
                      rng: RandomBytes, draw: nat -> CharsetIndex): (r: Effect)
    requires IndicesInRange(s, msg)
    ensures !msg.LoginPressed? ==> r.state.storage == s.storage
    ensures !(msg.LoginPressed? || msg.SaveEntry? || msg.DeleteService?) ==> r.state.store == s.store
    ensures !(msg.SaveEntry? || msg.DeleteService?) ==> r.vault == vault
    ensures r.task.ClipboardWrite? <==> msg.CopyPassword?
    ensures msg.CopyPassword? ==> r == Effect(s, vault, ClipboardWrite(msg.password))
  {
    match msg
    case ThemeChanged(theme) => Effect(s.(theme := theme), vault, NoTask)
    case ToggleVisibility => Effect(s.(isPasswordVisible := !s.isPasswordVisible), vault, NoTask)
    case MasterPasswordChanged(input) => Effect(s.(masterPasswordInput := input), vault, NoTask)
    case LoginPressed =>
      (match Loaded(p, vault, s.masterPasswordInput, rng)
       case Ok((storage, store)) =>
         Effect(s.(storage := Some(storage), store := store, masterPasswordInput := "", errorMessage := None), vault, NoTask)
       case Err(e) => Effect(s.(errorMessage := Some(e)), vault, NoTask))
    case SelectService(id) =>
      var entry := s.store.entries[id];
      Effect(s.(selectedService := Some(id), newService := entry.service, newUser := entry.username,
                newPassword := entry.password), vault, NoTask)
    case SearchChanged(search) => Effect(s.(searchQuery := search), vault, NoTask)
    case NewServiceChanged(service) => Effect(s.(newService := service), vault, NoTask)
    case NewUserChanged(user) => Effect(s.(newUser := user), vault, NoTask)
    case NewPasswordChanged(password) => Effect(s.(newPassword := password), vault, NoTask)
    case GenerateNewPassword(len) =>
      if s.storage.Some? then Effect(s.(newPassword := GeneratePassword(len, draw)), vault, NoTask)
      else Effect(s, vault, NoTask)
    case SaveEntry =>
      var store := s.store.(entries := Edited(s));
      if s.storage.Some? then
        var outcome := SaveOutcome(p, s.storage.value, store, vault, rng);
        var error := if outcome.Err? then Some(outcome.error) else s.errorMessage;
        Effect(ClearForm(s.(store := store, errorMessage := error)),
               AfterSave(p, s.storage.value, store, vault, rng), NoTask)
      else
        Effect(ClearForm(s.(store := store)), vault, NoTask)
    case DeleteService(id) =>
      var store := s.store.(entries := Removed(s.store.entries, id));
      var vault' := if s.storage.Some? then AfterSave(p, s.storage.value, store, vault, rng) else vault;
      Effect(s.(store := store, selectedService := None), vault', NoTask)
    case CopyPassword(password) => Effect(s, vault, ClipboardWrite(password))
    case CancelEdit => Effect(ClearForm(s), vault, NoTask)
    case LengthChanged(newLen) => Effect(s.(passwordLength := newLen), vault, NoTask)
  }

  class PasswordManagerApp {
    var masterPasswordInput: string
    var errorMessage: Option<string>
    var storage: Option<Storage>
    var store: PasswordStore
    var searchQuery: string
    var selectedService: Option<nat>
    var isPasswordVisible: bool
    var theme: Theme
    var newService: string
    var newUser: string
    var newPassword: string
    var passwordLength: u8

    function State(): AppState
      reads this
    {
      AppState(masterPasswordInput, errorMessage, storage, store, searchQuery, selectedService,
               isPasswordVisible, theme, newService, newUser, newPassword, passwordLength)
    }

    /** PasswordManagerApp::default. */
    constructor ()
      ensures State() == Initial && Consistent(State())
    {
      masterPasswordInput := "";
      errorMessage := None;
      storage := None;
      store := PasswordStore([]);
      searchQuery := "";
      selectedService := None;
      isPasswordVisible := false;
      theme := Theme("Nightfly");
      newService := "";
      newUser := "";
      newPassword := "";
      passwordLength := 16;
    }

    /** PasswordManagerApp::update: changes the fields in place as
        Transition describes, and keeps the selection in range. */
    method Update(msg: Message, p: Primitives, fs: FileSystem, rng: RandomBytes, draw: nat -> CharsetIndex)
      returns (task: Task)
      requires Consistent(State()) && Accepts(State(), msg)
      modifies this, fs
      ensures Transition(old(State()), msg, p, old(fs.vault), rng, draw) == Effect(State(), fs.vault, task)
      ensures Consistent(State())
    {
      task := NoTask;
      match msg {
        case ThemeChanged(t) =>
          theme := t;
        case ToggleVisibility =>
          isPasswordVisible := !isPasswordVisible;
        case MasterPasswordChanged(input) =>
          masterPasswordInput := input;
        case LoginPressed =>
          OnLoginPressed(p, fs, rng);
        case SelectService(id) =>
          selectedService := Some(id);
          var entry := store.entries[id];
          newService := entry.service;
          newUser := entry.username;
          newPassword := entry.password;
        case SearchChanged(search) =>
          searchQuery := search;
        case NewServiceChanged(s) =>
          newService := s;
        case NewUserChanged(u) =>
          newUser := u;
        case NewPasswordChanged(pw) =>
          newPassword := pw;
        case GenerateNewPassword(len) =>
          if storage.Some? {
            newPassword := GeneratePassword(len, draw);
          }
        case SaveEntry =>
          OnSaveEntry(p, fs, rng);
        case DeleteService(id) =>
          OnDeleteService(id, p, fs, rng);
        case CopyPassword(password) =>
          task := ClipboardWrite(password);
        case CancelEdit =>
          newService := "";
          newUser := "";
          newPassword := "";
          selectedService := None;
        case LengthChanged(newLen) =>
          passwordLength := newLen;
      }
      TransitionKeepsSelectionInRange(old(State()), msg, p, old(fs.vault), rng, draw);
    }

    /** The LoginPressed arm of update. */
    method OnLoginPressed(p: Primitives, fs: FileSystem, rng: RandomBytes)
      modifies this
      ensures State() == Transition(old(State()), LoginPressed, p, fs.vault, rng, _ => 0).state
    {
      var loaded := Load(p, fs, masterPasswordInput, rng);
      match loaded {
        case Ok((st, s)) =>
          storage := Some(st);
          store := s;
          masterPasswordInput := "";
          errorMessage := None;
        case Err(e) =>
          errorMessage := Some(e);
      }
    }

    /** The SaveEntry arm of update. */
    method OnSaveEntry(p: Primitives, fs: FileSystem, rng: RandomBytes)
      requires SelectionInRange(State())
      modifies this, fs
      ensures var e := Transition(old(State()), SaveEntry, p, old(fs.vault), rng, _ => 0);
              State() == e.state && fs.vault == e.vault
    {
      var newEntry := PasswordEntry(newService, newUser, newPassword);
      if selectedService.Some? {
        store := store.(entries := store.entries[selectedService.value := newEntry]);
      } else {
        store := store.(entries := store.entries + [newEntry]);
      }
      if storage.Some? {
        var saved := Save(p, storage.value, store, fs, rng);
        if saved.Err? {
          errorMessage := Some(saved.error);
        }
      }
      newService := "";
      newUser := "";
      newPassword := "";
      selectedService := None;
    }

    /** The DeleteService arm of update; a failed save is ignored. */
    method OnDeleteService(id: nat, p: Primitives, fs: FileSystem, rng: RandomBytes)
      requires id < |store.entries|
      modifies this, fs
      ensures var e := Transition(old(State()), DeleteService(id), p, old(fs.vault), rng, _ => 0);
              State() == e.state && fs.vault == e.vault
    {
      store := store.(entries := store.entries[..id] + store.entries[id + 1..]);
      if storage.Some? {
        var _ := Save(p, storage.value, store, fs, rng);
      }
      selectedService := None;
    }
  }

  /** Every handler keeps the editor's invariant, so the selected position
      stays in range. */
  lemma TransitionKeepsSelectionInRange(s: AppState, msg: Message, p: Primitives, vault: VaultFile,
                                        rng: RandomBytes, draw: nat -> CharsetIndex)
    requires Consistent(s) && Accepts(s, msg)
    ensures IndicesInRange(s, msg) && Consistent(Transition(s, msg, p, vault, rng, draw).state)
  {
  }

  /** SaveEntry with a selection replaces that entry with the form and leaves
      the others and the length as they were. */
  lemma SaveEntryReplacesSelected(s: AppState, p: Primitives, vault: VaultFile,
                                  rng: RandomBytes, draw: nat -> CharsetIndex, id: nat)
    requires s.selectedService == Some(id) && id < |s.store.entries|
    ensures var t := Transition(s, SaveEntry, p, vault, rng, draw).state;
            && |t.store.entries| == |s.store.entries|
            && t.store.entries[id] == PasswordEntry(s.newService, s.newUser, s.newPassword)
            && (forall j :: 0 <= j < |s.store.entries| && j != id ==> t.store.entries[j] == s.store.entries[j])
  {
  }

  /** SaveEntry without a selection appends the form as a new last entry. */
  lemma SaveEntryAppends(s: AppState, p: Primitives, vault: VaultFile, rng: RandomBytes, draw: nat -> CharsetIndex)
    requires s.selectedService.None?
    ensures var t := Transition(s, SaveEntry, p, vault, rng, draw).state;
            && |t.store.entries| == |s.store.entries| + 1
            && t.store.entries[..|s.store.entries|] == s.store.entries
            && t.store.entries[|s.store.entries|] == PasswordEntry(s.newService, s.newUser, s.newPassword)
  {
  }

  /** After SaveEntry the form is empty and nothing is selected, whether or
      not the save succeeded; a failed save reports its error and keeps the
      edit in memory, a successful one leaves the error as it was. */
  lemma SaveEntryClearsForm(s: AppState, p: Primitives, vault: VaultFile, rng: RandomBytes, draw: nat -> CharsetIndex)
    requires SelectionInRange(s)
    ensures var t := Transition(s, SaveEntry, p, vault, rng, draw).state;
            && t.newService == "" && t.newUser == "" && t.newPassword == ""
            && t.selectedService.None?
            && t.store.entries == Edited(s)
            && t.storage == s.storage
            && (s.storage.Some? && SaveOutcome(p, s.storage.value, t.store, vault, rng).Err?
                ==> t.errorMessage == Some(SaveOutcome(p, s.storage.value, t.store, vault, rng).error))
            && (s.storage.None? || SaveOutcome(p, s.storage.value, t.store, vault, rng).Ok?
                ==> t.errorMessage == s.errorMessage)
  {
  }

  /** DeleteService removes exactly entry `id`, keeps the order of the rest
      and drops the selection. */
  lemma DeleteServiceRemoves(s: AppState, p: Primitives, vault: VaultFile, rng: RandomBytes,
                             draw: nat -> CharsetIndex, id: nat)
    requires id < |s.store.entries|
    ensures var t := Transition(s, DeleteService(id), p, vault, rng, draw).state;
            && |t.store.entries| == |s.store.entries| - 1
            && (forall j :: 0 <= j < id ==> t.store.entries[j] == s.store.entries[j])
            && (forall j :: id <= j < |t.store.entries| ==> t.store.entries[j] == s.store.entries[j + 1])
            && t.selectedService.None?
            && t.errorMessage == s.errorMessage
  {
  }

  /** SelectService copies the chosen entry into the form and changes no entry. */
  lemma SelectServiceFillsForm(s: AppState, p: Primitives, vault: VaultFile, rng: RandomBytes,
                               draw: nat -> CharsetIndex, id: nat)
    requires id < |s.store.entries|
    ensures var e := Transition(s, SelectService(id), p, vault, rng, draw);
            && e.state.selectedService == Some(id)
            && PasswordEntry(e.state.newService, e.state.newUser, e.state.newPassword) == s.store.entries[id]
            && e.state.store == s.store
            && e.vault == vault
  {
  }

  /** CancelEdit empties the form and the selection and nothing else. */
  lemma CancelEditClears(s: AppState, p: Primitives, vault: VaultFile, rng: RandomBytes, draw: nat -> CharsetIndex)
    ensures var e := Transition(s, CancelEdit, p, vault, rng, draw);
            && e.state == s.(newService := "", newUser := "", newPassword := "", selectedService := None)
            && e.vault == vault
  {
  }

  /** Toggling the password visibility twice restores the state. */
  lemma ToggleVisibilityTwice(s: AppState, p: Primitives, vault: VaultFile, rng: RandomBytes, draw: nat -> CharsetIndex)
    ensures var once := Transition(s, ToggleVisibility, p, vault, rng, draw).state;
            Transition(once, ToggleVisibility, p, vault, rng, draw).state == s
  {
  }

  /** LoginPressed: on success the loaded vault and store are installed, the
      typed password is cleared with the error, and the vault's cipher is the
      one derived from that password; on failure only the error changes.
      The vault file is never written. */
  lemma LoginPressedOutcome(s: AppState, p: Primitives, vault: VaultFile, rng: RandomBytes, draw: nat -> CharsetIndex)
    ensures var e := Transition(s, LoginPressed, p, vault, rng, draw);
            var r := Loaded(p, vault, s.masterPasswordInput, rng);
            && e.vault == vault
            && (r.Ok? ==> && e.state == s.(storage := Some(r.value.0), store := r.value.1,
                                           masterPasswordInput := "", errorMessage := None)
                          && Crypto.New(p, s.masterPasswordInput, r.value.0.salt) == Ok(r.value.0.crypto))
            && (r.Err? ==> e.state == s.(errorMessage := Some(r.error)))
  {
  }

  /** End to end: once a vault unlocked with `password` has saved an edit,
      a freshly started app that logs in with the same password sees the
      edited entry list. */
  lemma SavedEditSurvivesRestart(s: AppState, p: Primitives, vault: VaultFile, rng: RandomBytes, rng': RandomBytes,
                                 draw: nat -> CharsetIndex, password: string)
    requires AeadCorrect(p) && Utf8RoundTrip(p) && JsonRoundTrip(p)
    requires SelectionInRange(s)
    requires s.storage.Some? && Crypto.New(p, password, s.storage.value.salt) == Ok(s.storage.value.crypto)
    requires vault.readError.None?
    requires SaveOutcome(p, s.storage.value, s.store.(entries := Edited(s)), vault, rng).Ok?
    ensures var saved := Transition(s, SaveEntry, p, vault, rng, draw);
            var restarted := Transition(Initial.(masterPasswordInput := password), LoginPressed, p, saved.vault, rng', draw);
            restarted.state.store == saved.state.store && restarted.state.storage == s.storage
  {
    var store := s.store.(entries := Edited(s));
    SaveThenLoad(p, s.storage.value, store, password, rng, rng', vault.writeError);
  }
}
