// curl::client::download_file_helper and the temporary file it downloads into.

module Download {
  import opened Options

  type Path = string

  // ----- The world outside -----

  /** What curl_easy_perform does: the bytes that reach the temporary file, and how it ends. */
  datatype Transfer =
    | WriteError(partial: string)
    | ServerError(partial: string)
    | Completed(body: string, status: nat)

  /** Which of the fallible steps fail. */
  datatype Faults = Faults(open: bool, permissions: bool, setup: bool, transfer: Transfer,
                           rename: bool, read: bool, remove: bool)

  datatype Response = Response(status: nat, body: string)

  datatype Failure = FileOperation | CurlSetup | FileDownload

  datatype Result = Success(response: Option<Response>) | Thrown(failure: Failure)

  class FileSystem {
    var files: map<Path, string>

    /** fs::rename: the target is replaced in one step. */
    method Rename(from: Path, to: Path, fails: bool) returns (ok: bool)
      requires from in files && from != to
      modifies this
      ensures ok == !fails
      ensures files == if fails then old(files) else old(files)[to := old(files)[from]] - {from}
    {
      if fails {
        return false;
      }
      files := files[to := files[from]] - {from};
      return true;
    }

    /** fs::remove: removing what is not there is no error. */
    method Remove(path: Path, fails: bool)
      modifies this
      ensures files == if fails then old(files) else old(files) - {path}
    {
      if !fails {
        files := files - {path};
      }
    }
  }

  /** A C FILE. It may be closed only while it is open. */
  class File {
    var isOpen: bool
    ghost var closes: nat

    constructor ()
      ensures isOpen && closes == 0
    {
      isOpen, closes := true, 0;
    }

    method Close()
      requires isOpen
      modifies this
      ensures !isOpen && closes == old(closes) + 1
    {
      isOpen, closes := false, closes + 1;
    }
  }

  // ----- The temporary file -----

  class TempFile {
    const fileSystem: FileSystem
    const filePath: Path
    const tempPath: Path
    var fp: File?
    ghost var file: File?  // the FILE that was opened, if any

    /** The FILE that the object still holds is open, one that it no longer holds was closed once. */
    ghost predicate Valid()
      reads this, file
    {
      && tempPath != filePath
      && (fp != null ==> fp == file)
      && (file != null ==> if fp != null then file.isOpen && file.closes == 0 else !file.isOpen && file.closes == 1)
    }

    constructor (fileSystem: FileSystem, filePath: Path, tempPath: Path)
      requires tempPath != filePath
      ensures this.fileSystem == fileSystem && this.filePath == filePath && this.tempPath == tempPath
      ensures Valid() && file == null && fp == null
    {
      this.fileSystem, this.filePath, this.tempPath := fileSystem, filePath, tempPath;
      fp, file := null, null;
    }

    /** The body of the constructor. When it throws, the destructor does not run. */
    method Open(setPermissions: bool, faults: Faults) returns (ok: bool)
      requires Valid() && fp == null && file == null
      modifies this, fileSystem
      ensures ok == !(faults.open || (setPermissions && faults.permissions))
      ensures ok ==> Valid()
      ensures !ok && file != null ==> !file.isOpen && file.closes == 1
      ensures faults.open ==> file == null && fileSystem.files == old(fileSystem.files)
      ensures !faults.open ==> file != null && fresh(file)
      ensures ok ==> fp != null && fileSystem.files == old(fileSystem.files)[tempPath := []]
      ensures !ok && !faults.open ==> fileSystem.files == if faults.remove then old(fileSystem.files)[tempPath := []]
                                                          else old(fileSystem.files) - {tempPath}
    {
      if faults.open {
        return false;
      }
      fp := new File();
      file := fp;
      fileSystem.files := fileSystem.files[tempPath := []];
      if !setPermissions {
        return true;
      }
      if faults.permissions {
        Cleanup(faults);
        return false;
      }
      return true;
    }

    method CloseFp()
      requires Valid() && fp != null
      modifies this, fp
      ensures Valid() && fp == null && file == old(file)
    {
      fp.Close();
      fp := null;
    }

    /** Moves the download over the target. */
    method Write(faults: Faults) returns (ok: bool)
      requires Valid() && fp != null && tempPath in fileSystem.files
      modifies this, fp, fileSystem
      ensures Valid() && fp == null && file == old(file)
      ensures ok == !faults.rename
      ensures fileSystem.files ==
              if ok then old(fileSystem.files)[filePath := old(fileSystem.files)[tempPath]] - {tempPath}
              else old(fileSystem.files)
    {
      CloseFp();
      ok := fileSystem.Rename(tempPath, filePath, faults.rename);
    }

    /** Reads the download back as the response's body. */
    method WriteBody(faults: Faults) returns (body: Option<string>)
      requires Valid() && fp != null && tempPath in fileSystem.files
      modifies this, fp
      ensures Valid() && fp == null && file == old(file)
      ensures body == if faults.read then None else Some(fileSystem.files[tempPath])
    {
      CloseFp();
      body := if faults.read then None else Some(fileSystem.files[tempPath]);
    }

    method Cleanup(faults: Faults)
      requires Valid()
      modifies this, fp, fileSystem
      ensures fp == old(fp) && file == old(file)
      ensures file != null ==> !file.isOpen && file.closes == 1
      ensures fileSystem.files == if faults.remove then old(fileSystem.files) else old(fileSystem.files) - {tempPath}
    {
      if fp != null {
        fp.Close();
      }
      fileSystem.Remove(tempPath, faults.remove);
    }
  }

  // ----- The download -----

  /** The part of the helper between the construction and the destruction of the temporary file. */
  method Perform(temp: TempFile, wantsResponse: bool, faults: Faults) returns (r: Result)
    requires temp.Valid() && temp.fp != null && temp.tempPath in temp.fileSystem.files
    modifies temp, temp.fp, temp.fileSystem
    ensures temp.Valid() && temp.file == old(temp.file)
    ensures r.Success? <==> !faults.setup && faults.transfer.Completed?
                            && !(if faults.transfer.status >= 400 && wantsResponse then faults.read else faults.rename)
    ensures r.Success? && !(faults.transfer.status >= 400 && wantsResponse) ==>
              temp.fileSystem.files ==
              old(temp.fileSystem.files)[temp.filePath := faults.transfer.body] - {temp.tempPath}
    ensures !r.Success? || (faults.transfer.status >= 400 && wantsResponse) ==>
              temp.fileSystem.files - {temp.tempPath} == old(temp.fileSystem.files) - {temp.tempPath}
    ensures r.Success? && !wantsResponse ==> r.response == None
    ensures r.Success? && wantsResponse ==>
              r.response == Some(Response(faults.transfer.status,
                                          if faults.transfer.status >= 400 then faults.transfer.body else []))
    ensures r.Thrown? ==> r.failure == if faults.setup then CurlSetup
                                       else if faults.transfer.ServerError? then FileDownload else FileOperation
  {
    if faults.setup {
      return Thrown(CurlSetup);
    }
    var fs, path := temp.fileSystem, temp.tempPath;
    match faults.transfer
    case WriteError(partial) =>
      fs.files := fs.files[path := partial];
      return Thrown(FileOperation);
    case ServerError(partial) =>
      fs.files := fs.files[path := partial];
      return Thrown(FileDownload);
    case Completed(body, status) =>
      fs.files := fs.files[path := body];
      var response := Response(status, []);
      if status >= 400 && wantsResponse {
        var text := temp.WriteBody(faults);
        if text.None? {
          return Thrown(FileOperation);
        }
        response := response.(body := text.value);
      } else {
        var ok := temp.Write(faults);
        if !ok {
          return Thrown(FileOperation);
        }
      }
      return Success(if wantsResponse then Some(response) else None);
  }

  /** Downloads into a temporary file next to the target, whose name is new, and moves it over the target.
      Whatever fails, the FILE is closed exactly once, the temporary file is gone unless removing it fails,
      every other file is untouched, and the target is untouched or holds the whole download. */
  method DownloadFileHelper(fs: FileSystem, filePath: Path, tempPath: Path, setPermissions: bool,
                            wantsResponse: bool, faults: Faults)
    returns (r: Result, ghost file: File?)
    requires tempPath != filePath && tempPath !in fs.files
    modifies fs
    ensures file == null <==> faults.open
    ensures file != null ==> !file.isOpen && file.closes == 1
    ensures r.Success? <==>
            && !faults.open && !(setPermissions && faults.permissions) && !faults.setup && faults.transfer.Completed?
            && !(if faults.transfer.status >= 400 && wantsResponse then faults.read else faults.rename)
    ensures r.Thrown? ==> r.failure == if faults.open || (setPermissions && faults.permissions) then FileOperation
                                       else if faults.setup then CurlSetup
                                       else if faults.transfer.ServerError? then FileDownload else FileOperation
    ensures !faults.remove ==> tempPath !in fs.files
    ensures fs.files - {tempPath} ==
              if r.Success? && !(faults.transfer.status >= 400 && wantsResponse)
              then old(fs.files)[filePath := faults.transfer.body]
              else old(fs.files)
    ensures r.Success? && !wantsResponse ==> r.response == None
    ensures r.Success? && wantsResponse ==>
              r.response == Some(Response(faults.transfer.status,
                                          if faults.transfer.status >= 400 then faults.transfer.body else []))
  {
    ghost var before := fs.files;
    assert before - {tempPath} == before;
    var temp := new TempFile(fs, filePath, tempPath);
    var ok := temp.Open(setPermissions, faults);
    file := temp.file;
    if !ok {
      return Thrown(FileOperation), file;
    }
    r := Perform(temp, wantsResponse, faults);
    assert temp.file == file;
    // The destructor runs however the helper is left.
    temp.Cleanup(faults);
  }
}
